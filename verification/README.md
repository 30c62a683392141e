# Egret Nest Dashboard: a verified model of its stateful core

Egret Nest Dashboard is a Go web server over one SQLite connection. This project models the parts of it that are
hard to get right by reading one function at a time: requests that interleave, an index kept up to date
incrementally, a limiter that forgets, codes that must work only once, a configuration that must roll back, and text
that must sort like time. Each transaction or single SQL statement is one atomic step; tables are maps, sequences and
sets; a request is a record with a program counter; the clock is an integer that the events move forward.

What the program changes in place is a class here, whose methods follow the program's branches. The methods of
`MembershipStore`, `FailLimiter`, `DriftStore`, `AuthStore` and `SessionStore` are proved equal to step functions on
values, and the theorems about runs and interleavings are stated about those functions. `RingLog` and `SeedStore` are
proved against a ghost history of what was put in, `AuthServer` against relations between the state before and after
a call, and `HashSlots` against its counter; the interleaving of the slots is stated about the events of `Login`.

| file | component |
|---|---|
| `Common.dfy`, `Digits.dfy` | optional values, case folding, finite-set facts; decimal notation |
| `Roles.dfy`, `OrgStore.dfy`, `OrgProtocol.dfy` | organization memberships: guarded transactions, and requests whose reads go stale |
| `Drift.dfy`, `DriftHistory.dfy`, `DriftViews.dfy` | ingested runs, the endpoint index beside them, and what a viewer sees |
| `IngestShape.dfy` | the stack machine that bounds ingest JSON, against the recursive shape of JSON (RFC 8259) |
| `Limiter.dfy`, `Login.dfy`, `LoginLimits.dfy`, `LoginReplay.dfy` | limiter, hashing slots, one-time codes and janitor, alone and interleaving |
| `Totp.dfy` | truncation and verification of one-time codes (RFC 4226, RFC 6238) |
| `AuthConfig.dfy` | sign-in providers: save, reload, roll back |
| `SecretBox.dfy` | sealed secrets and the seeds stored that way |
| `Bootstrap.dfy` | first-run setup racing with single sign-on |
| `Timestamps.dfy`, `Sessions.dfy` | times kept as RFC 3339 text, and the sessions that are found by comparing them |
| `RingLog.dfy` | the in-memory access log |

Where the code and its own comments disagree, the model follows the code:

- `internal/server/orgadmin.go:22-24` says a manager never acts on a member who outranks them, and lines 322-324 that
  a role change is never an add. Both hold for a request that nothing interleaves with
  (`AloneMeetsThePrivilegeModel`), and both fail when another request slips in between check and write
  (`StaleWriteDemotesAnOwner`, `StaleSetRoleAddsAMember`). In every run, a write respects ranks if and only if the
  handler's own guard still holds at the write or the target is the only owner (`OnlyARaceOutranks`); and a role
  change is an add if and only if its row is absent at the write, which takes a removal after the handler saw the row
  (`RoleChangeAddsIff`). What survives every interleaving is `CoalitionCannotEscalate` and `LastOwnerStays`.
- `internal/server/authconfig.go:109-112` says that a failure in one provider can never block a change to the other.
  It can, in both directions, exactly if the other provider is configured in the settings with a secret that cannot
  be opened (`OneProviderBlocksTheOtherIff`). The page then refuses every form, the one that would clear the broken
  provider included. A server does not start in such a state, but a running one can be brought there
  (`SaveStrandsTheServer`, `StrandedServerIsLocked`). `internal/server/admin_auth.go:180-181` speaks of discovery
  only, and is right: `ReloadGitHub` does not depend on the network.
- `internal/server/admin_auth.go:178-179` says that a rollback keeps the live provider and the database consistent,
  and `internal/store/settings.go:82-84` that an update cannot silently drop the allowed-org restriction. Both hold
  for the writes; a read that fails breaks both. A value whose recording failed is deleted by the rollback
  (`RollbackRestoresIff`), and a reload ignores failed reads of some fields and goes live without them, the allowed
  organization and the allowed domain among them (`GoesLiveIff`).
- `internal/server/admin.go:104-105` says an hour is far beyond the validity of a one-time code. The exact condition
  is on the time between verifying a code and claiming it: at most 3511 seconds (`EachCodeLetsInOneLogin`).
- The zero time is stored as the empty text, which sorts before year 0 (`TextOrderIsTimeOrderIff`).
- The limiter's `release` refunds whatever bucket is there (`StaleReleaseRefundsTheNextWindow`), and pruning can be
  told apart if times arrive out of order (`OutOfOrderTimesShowPruning`).
- An insert reads the clock before its transaction begins (`internal/store/store.go:268-273`), so inserts can commit
  out of the order of their times, and one that is behind an earlier sighting breaks the agreement between index and
  runs (`InsertKeepsTheIndexExactIff`, `IndexStaysExactIff`, `OvertakingInsertsBreakTheIndex`).

## Model

| member | source | states |
|---|---|---|
| Common.FoldsAlikeIff | internal/store/store.go:269-271 | texts fold to the same text exactly if they are the same up to the case of ASCII letters, and a folded text holds no capital letter |
| Roles.RolesInOrder | internal/model/auth.go:15-35 | owner is above admin, admin above member, member above viewer, by name; only these four are roles |
| OrgStore.MembershipStore.SetMembershipRole | internal/store/orgadmin.go:155-185 | refuses exactly when it would demote the only owner; otherwise writes that one row, unless org or user does not exist; on refusal nothing changes |
| OrgStore.MembershipStore.RemoveMembershipGuarded | internal/store/orgadmin.go:190-218 | refuses exactly when the user is the only owner; otherwise that row, and only that row, is gone; removing a non-member is no error |
| OrgStore.MembershipStore.RevokeIngestTokenInOrg | internal/store/orgadmin.go:135-142 | revokes a token exactly when it belongs to the given org, and touches no other token |
| OrgStore.TransactionsKeepAnOwner | internal/store/orgadmin.go:144-218 | neither transaction can take any org from some owner to none |
| OrgProtocol.LastOwnerStays | internal/server/orgadmin.go:25-362 | in every interleaving, by any actors including instance admins and with any requests already in flight, an org that has an owner keeps one |
| OrgProtocol.OtherOrgsUntouched | internal/server/orgadmin.go:255-362 | requests on other orgs leave an org's whole membership table as it was, over every run |
| OrgProtocol.CoalitionCannotEscalate | internal/server/orgadmin.go:30-83 | in every interleaving of requests by users who are no instance admins and rank at most r in the org, none in flight at first, no membership above r is created, changed or removed; below admin rank the table never changes; stale reads included |
| OrgProtocol.MembersCannotChangeTheOrg | internal/server/orgadmin.go:20-24 | in every interleaving, members, viewers and strangers together leave the org's whole table as it was |
| OrgProtocol.AdminsCannotTouchOwners | internal/server/orgadmin.go:22-24 | in every interleaving, a coalition without owners, admins among them, leaves the set of owners as it was |
| OrgProtocol.ContainedMove | internal/server/orgadmin.go:260-358 | the step case: a pending write of such a request aims at a row and a role within the rank, whatever else happened since it was checked |
| OrgProtocol.AloneMeetsThePrivilegeModel | internal/server/orgadmin.go:20-25 | run alone, a request changes the table exactly as the documented privilege model permits, and otherwise not at all |
| OrgProtocol.OnlyManagersWrite | internal/server/orgadmin.go:55-72 | run alone, a request of somebody who is neither owner nor admin of the org nor an instance admin changes nothing |
| OrgProtocol.ManagersWrite | internal/server/orgadmin.go:20-25 | run alone, an owner or instance admin may give any role to any member and remove any, and an admin may do so among non-owners, as long as an owner remains |
| OrgProtocol.AnswersAlone | internal/server/orgadmin.go:255-362 | run alone, what each request answers: not found, nothing to do, no such user, denied, last owner kept, saved |
| OrgProtocol.AccountsOnlyGrow | internal/store/auth.go:120-139 | over every run, users and orgs only become more and a login keeps its user |
| OrgProtocol.NewAccountsAndRequests | internal/store/auth.go:144-147 | a new account is found by its login in any case of its letters, and none is made if that is taken; a request starts only if it is new and its actor has an account |
| OrgProtocol.OnlyARaceOutranks | internal/server/orgadmin.go:81-83 | in every run, a pending write gives and takes no role above the writer's own if and only if the handler's guard holds at the write or the target is the only owner; it does if the target still holds the role that was read |
| OrgProtocol.WriteRespectsRankIff | internal/server/orgadmin.go:276-285 | the same for one write whose checks were made at some earlier time |
| OrgProtocol.RoleChangeAddsIff | internal/server/orgadmin.go:316-332 | in every run from existing orgs and users, the write of a role change is an add if and only if its row is absent at the write, and that takes a removal after the handler saw the row, whatever its second read said |
| OrgProtocol.RoleChangeRun | internal/server/orgadmin.go:322-332 | the invariant over every run: a role change that passed its check has its row, unless somebody removed it since |
| OrgProtocol.StaleWriteDemotesAnOwner | internal/server/orgadmin.go:22-24 | a reachable run in which an admin's stale write demotes an owner, against the documented rule |
| OrgProtocol.StaleSetRoleAddsAMember | internal/server/orgadmin.go:322-324 | a reachable run in which a role change inserts a removed membership, against the comment |
| IngestShape.CheckIngestShape | internal/server/ingest_limits.go:31-70 | the loop computes the verdict of the token machine; running out of tokens is malformed |
| IngestShape.AcceptsExactlyWhatFits | internal/server/ingest_limits.go:11-70 | on the tokens of any complete JSON value followed by anything, the answer is accepted exactly when the array lengths sum to at most 100000 and containers nest at most 32 deep, and otherwise too large, never malformed |
| IngestShape.ValueRun | internal/server/ingest_limits.go:34-68 | inside a container, a whole value leaves the stack as it was and counts its elements, or halts as too large: simulation of the recursive definition |
| IngestShape.NoStrictPrefixIsAccepted | internal/server/ingest_limits.go:35-39 | no strict prefix of a complete container's tokens is accepted, and one of a container that fits is malformed |
| IngestShape.StrayCloseIsMalformed | internal/server/ingest_limits.go:35-46 | a closing delimiter with nothing open, and no token at all, are malformed |
| IngestShape.StackIsBounded | internal/server/ingest_limits.go:60-64 | on any token stream at all, the stack holds at most 32 entries and the count stays within 100000 |
| Limiter.FailLimiter.IsBlocked | internal/server/ratelimit.go:28-36 | blocked exactly when a bucket that has not lapsed has reached the ceiling |
| Limiter.FailLimiter.RecordFail | internal/server/ratelimit.go:39-51 | counts one more in the live bucket, or one in a fresh one, with no ceiling |
| Limiter.FailLimiter.TryReserve | internal/server/ratelimit.go:59-75 | grants exactly below the ceiling, counts what it grants, and leaves every other key's live bucket alone, pruning or not |
| Limiter.FailLimiter.GiveBack | internal/server/ratelimit.go:78-84 | takes one back from the key's bucket, lapsed or not, if it counts any; other keys untouched |
| Limiter.FailLimiter.Clear | internal/server/ratelimit.go:87-91 | forgets exactly that key |
| Limiter.FailLimiter.PruneLocked | internal/server/ratelimit.go:94-100 | keeps exactly the buckets that have not lapsed |
| Limiter.Pruned | internal/server/ratelimit.go:94-100 | dropping lapsed buckets changes no key's live bucket, now or at any later time |
| Limiter.PruningIsInvisible | internal/server/ratelimit.go:28-100 | any two pruning schedules give every call of every run with a non-decreasing clock the same answers |
| Limiter.OwnPruningIsInvisible | internal/server/ratelimit.go:42-44 | the limiter, pruning above 10000 buckets, answers as one that never prunes |
| Limiter.PruningShowsIff | internal/server/ratelimit.go:94-100 | a prune changes what a time sees exactly if that time is before the prune and the dropped bucket had not lapsed at it |
| Limiter.PrunedAnswersDifferIff | internal/server/ratelimit.go:28-75 | the call after a prune answers differently exactly if its time is such a time and the dropped bucket was full |
| Limiter.OutOfOrderTimesShowPruning | internal/server/ratelimit.go:59-75 | the condition on the clock is needed: three calls with times out of order whose answers depend on pruning |
| Limiter.GrantsAreAccountedFor | internal/server/ratelimit.go:59-91 | with reserve, release and reset only, a count stays between 0 and the ceiling, and grants since the bucket opened equal the count plus the releases that took effect; so a bucket grants more than its ceiling exactly if more releases took effect than it has room left |
| Limiter.StaleReleaseRefundsTheNextWindow | internal/server/ratelimit.go:78-84 | a release from an earlier window refunds the current one: two grants in a window whose ceiling is one |
| Login.HashSlots.VerifyPassword | internal/auth/password.go:113-144 | every way out of a verification, a panic inside the hash included, leaves the slots as it found them; malformed, busy, crashed and checked are told apart |
| Login.SlotsAreTheHashingRequests | internal/auth/password.go:36-59 | in every interleaving of logins and setup requests, the slots taken equal the requests hashing now, and are at most two |
| LoginLimits.AtMostFiveAnswers | internal/server/auth_handlers.go:163-243 | over every interleaving, from any moment at which the key has no live bucket, whatever failed, logged in or is in flight from before, for one window and until a success: at most five new attempts reach an answer, plus one for each earlier attempt that ends busy only now, so at most five plus those in flight in all; with none in flight, the count equals the attempts in flight plus those that ended since without busy |
| LoginLimits.BucketMoves | internal/server/auth_handlers.go:167-184 | the step case: the live count moves with the request that moves, on every event |
| LoginLimits.BusyCostsNothing | internal/server/auth_handlers.go:181-210 | a login that finds no hashing slot leaves its key's count as it was, whether or not the account exists |
| LoginLimits.BucketsLastFifteenMinutes | internal/server/server.go:122 | the first attempt of a key opens a bucket that counts for exactly fifteen minutes |
| LoginLimits.SetupHashesAlone | internal/server/auth_handlers.go:82-91 | setup takes a hashing slot if one is free and gives it back, is turned away if none is, and touches no limiter key |
| LoginLimits.PasswordAlone | internal/server/auth_handlers.go:163-216 | the password part of an undisturbed login changes the limiter by one reservation and ends where account and password say |
| LoginLimits.CodeAlone | internal/server/auth_handlers.go:217-237 | the second factor lets in exactly a code within the skew whose counter is unused, burns it, and clears the key only then |
| LoginLimits.LoginAlone | internal/server/auth_handlers.go:146-244 | an undisturbed login succeeds if and only if its key is below the ceiling, the account is local, the password matches, and the second factor (if on) is fresh and in skew; what it costs in each case |
| LoginReplay.EachCodeLetsInOneLogin | internal/server/auth_handlers.go:217-235 | over every run of logins, enrolments and janitor passes, each time-step counter of each user lets in at most one login, if and only if claims follow their verification by at most 3511 seconds |
| LoginReplay.ReplayRun | internal/store/auth.go:405-421 | the invariant behind it, over every run: a consumed code is still in the table, or was consumed more than an hour ago |
| LoginReplay.NewClaimIsFresh | internal/server/admin.go:104-106 | a claim that succeeds after the row was pruned cannot be for a code verified in time |
| LoginReplay.BothHoldTheCode | internal/server/admin.go:104-108 | with a longer delay allowed, one code lets in two logins: verified at seconds 0 and 89, pruned and claimed again at 3601 |
| LoginReplay.EnrolmentCodeIsRefused | internal/server/account.go:138-146 | in every run, once the code used to enrol is burnt, no login that had not consumed it before ever does, if claims follow verification by at most 3511 seconds |
| Totp.Hotp | internal/auth/totp.go:32-50 | every index is in range for a 20-byte digest, and the masks, shifts and ors on a 32-bit word yield the code of RFC 4226, section 5.3 |
| Totp.HotpMeaning | internal/auth/totp.go:44-49 | the code is exactly six digits and denotes the four big-endian bytes at the offset, modulo 2^31 and then 10^6 |
| Totp.WordOfBytes | internal/auth/totp.go:44-48 | the 32-bit word is the number the four bytes at the offset denote in big-endian order, modulo 2^31 |
| Totp.ShiftsAreWeights | internal/auth/totp.go:45-48 | masks, shifts and ors on a 32-bit word are the weighted sum of its four bytes, the top bit dropped |
| Totp.VerifyTOTPCounter | internal/auth/totp.go:61-78 | succeeds exactly when the code of some counter within the skew of the time divided by 30 is the one given, and returns the smallest such counter; a wrong length or an undecodable secret fails |
| Drift.DriftStore.InsertEnvelope | internal/store/store.go:259-320 | stores the run, sights each distinct non-empty endpoint once, and returns the new ones, as the step function says |
| Drift.DriftStore.UpsertEndpoint | internal/store/store.go:324-343 | new exactly when there was no row; the first sighting is kept, the last one set |
| Drift.DriftStore.PruneRunsBefore | internal/store/store.go:518-536 | drops exactly the runs before the cutoff and the index rows last sighted before it, and returns how many runs went |
| Drift.FreshMeaning | internal/store/store.go:297-311 | the endpoints returned are exactly the non-empty ones of the session without an index row, each once, in order of first occurrence |
| Drift.SightedMeaning | internal/store/store.go:324-343 | after an insert exactly the rows of the session's endpoints changed: last sighting now, first sighting kept |
| DriftHistory.InsertKeepsTheIndexExactIff | internal/store/store.go:259-343 | an insert keeps the index in agreement with the runs if and only if none of its endpoints was last sighted after its own time |
| DriftHistory.PruneKeepsTheIndexExact | internal/store/store.go:518-536 | pruning keeps the agreement whatever the cutoff, although it never looks at the runs |
| DriftHistory.IndexIsExactAfterEveryHistory | internal/store/store.go:259-536 | from an empty database, after any inserts and prunes in which the inserts commit in the order of their times: rows are exactly the non-empty endpoints of the retained runs, last sighting is their latest time, first sighting is no later than any |
| DriftHistory.IndexStaysExactIff | internal/store/store.go:259-536 | all along any history, from any exact index, the index stays exact if and only if every insert sights only endpoints last sighted no later than its own time |
| DriftHistory.OvertakingInsertsBreakTheIndex | internal/store/store.go:268-273 | two inserts that read seconds 10 and 11 and commit the other way round make the index wrong; after a prune a run is kept whose endpoint is gone from the index and is reported as new again |
| DriftHistory.EveryRowEndsAtARun | internal/store/store.go:259-536 | after any history with any clock, every index row names an endpoint that some retained run contacted, at the time of its last sighting |
| DriftHistory.ReportedEndpointsAreNewToTheRuns | internal/store/store.go:297-319 | the endpoints reported are, each once and in order of first occurrence, the domains, or addresses where there is none, of the session's connections that occur in no retained run of the same org and lower-cased repository; their number is stored |
| DriftHistory.MentionsMeans | internal/model/model.go:57-64 | a run mentions an endpoint exactly if one of its connections has it as its domain, or has no domain and has it as its address |
| DriftHistory.RowsAreConserved | internal/store/store.go:324-343 | over any history and any clock, rows reported new less rows pruned equal rows present |
| DriftViews.OtherOrgsAreInvisible | internal/store/store.go:347-479 | two histories that agree on the prunes and on the inserts into a viewer's orgs give that viewer the same answers to all four reads, up to run ids |
| DriftViews.OtherOrgsDoNotReorder | internal/store/store.go:461-463 | nor do such histories change the order in which the viewer's endpoints are listed, the most recently seen first, but for ties |
| DriftViews.ListingsDifferInTies | internal/store/store.go:461-463 | two listings of the same endpoints, the most recently seen first, differ only in how ties are broken |
| DriftViews.ListRunsShowsTheNewest | internal/store/store.go:372-386 | after any history, the listing holds only runs in scope, newest id first, at most 50 or the positive limit, and leaves out only older ones, and only if it is full |
| DriftViews.RunsForRepoShowsTheNewest | internal/store/store.go:388-406 | the same for the runs of one repository, whatever the case of its name |
| DriftViews.IdsIncreaseOverEveryHistory | internal/store/store.go:279-295 | over every history, the stored runs are in the order of their ids |
| DriftViews.VisibleIff | internal/store/store.go:432-445 | a repository is visible exactly to instance admins and to viewers one of whose orgs has a run of it |
| DriftViews.HiddenReposShowNoEndpoints | internal/store/store.go:432-479 | after any history with any clock, a repository the viewer may not see shows no endpoints |
| DriftViews.EndpointHistoryIsTheRuns | internal/store/store.go:447-479 | after any history whose inserts commit in the order of their times, the endpoints shown are exactly those the viewer's own retained runs contacted, the last sighting is the latest such run, and none is before the first |
| DriftViews.ShownEndpointsWereContacted | internal/store/store.go:447-479 | the half that holds with any clock: an endpoint is shown only if such a run contacted it, and its last sighting is the time of one |
| DriftViews.GroupedRow | internal/store/store.go:459-463 | an endpoint seen in several orgs is shown once, with the earliest first sighting and the latest last sighting of its rows, each attained |
| RingLog.RingLog.Add | internal/server/logbuf.go:36-44 | appends to the history and keeps the newest entries in their slots |
| RingLog.RingLog.Recent | internal/server/logbuf.go:47-64 | returns exactly the newest entries of the whole history, newest first, cut to the capacity and to a positive limit; every index in range |
| RingLog.AddKeepsTheTail | internal/server/logbuf.go:39-43 | overwriting the slot of the next entry loses only the entry a capacity older |
| RingLog.BackwardSlot | internal/server/logbuf.go:60-62 | walking back from the next slot across the wrap lands on the i-th newest entry |
| SecretBox.RoundTripIff | internal/auth/secretbox.go:70-120 | opening a sealed value with the same key and associated data returns the plaintext if and only if it does not start with the prefix; for the strict form, if moreover it is not empty |
| SecretBox.OpensIff | internal/auth/secretbox.go:99-120 | a value with the prefix opens to a text exactly if the rest decodes to a nonce and a ciphertext that the cipher opens to it, and never without a key |
| SecretBox.UserAadsDiffer | internal/store/store.go:34-41 | no two users' seeds share their associated data |
| SecretBox.OpeningShrinks | internal/auth/secretbox.go:99-120 | what a value with the prefix opens to is strictly shorter, so it never opens to itself |
| SecretBox.NewTOTPSecret | internal/auth/totp.go:20-29 | a fresh seed has 32 characters and never looks sealed |
| SecretBox.GroupKeepsFiveBytes | internal/auth/totp.go:20-29 | eight characters of a seed denote its forty bits, so different random draws give different seeds |
| SecretBox.SeedStore.UseSecretBox | internal/store/store.go:29-32 | configuring a key on a database with plaintext seeds keeps every seed readable |
| SecretBox.SeedStore.SetUserTOTP | internal/store/auth.go:194-202 | after it, that user's seed reads back, every other row is as it was, and with a key configured the stored text is sealed; fails only if sealing needs a nonce and none could be drawn |
| SecretBox.SeedStore.ReadSeed | internal/store/auth.go:162-183 | returns the seed last set, whether stored before or after a key was configured |
| AuthConfig.WritingBackLeaves | internal/server/admin_auth.go:183-190 | writing back what was recorded before a batch undoes it, except that it deletes a stored value whose read failed |
| AuthConfig.RollbackRestoresIff | internal/server/admin_auth.go:188-211 | so a rollback restores the settings if and only if no read that failed had a stored value |
| AuthConfig.ReadIff | internal/server/authconfig.go:45-95 | with failing reads, there is no effective configuration exactly if, for a provider the environment does not manage, the read of the identifying field fails, or that field is set and the secret cannot be read or opened |
| AuthConfig.GoesLiveIff | internal/server/authconfig.go:72-90 | what a reload makes live is the provider of the settings if and only if no ignored read that failed had a value that matters to a complete provider |
| AuthConfig.ProvidersAreSeparate | internal/server/authconfig.go:45-95 | what is built for one provider depends only on that provider's settings |
| AuthConfig.SettingAadsDiffer | internal/store/settings.go:38-40 | no two settings of the providers share their associated data, nor does any share it with a user's seed |
| AuthConfig.ReadableIff | internal/server/authconfig.go:45-95 | there is an effective configuration exactly if neither provider is configured in the settings with a secret that cannot be opened |
| AuthConfig.SourcesMean | internal/server/authconfig.go:45-95 | a provider comes from the environment if that names it, else from the settings if these do, else from nowhere |
| AuthConfig.OneProviderBlocksTheOtherIff | internal/server/authconfig.go:109-118 | no change to one provider's settings leaves a readable configuration if and only if the other provider is so broken; for both providers, against the comment |
| AuthConfig.OnlyTheOtherBlocks | internal/server/authconfig.go:109-118 | while one provider is in order, the configuration is unreadable exactly if the other is broken, and removing the other's settings mends it |
| AuthConfig.StrandedBlocksGitHub | internal/server/authconfig.go:70-94 | at a concrete state, with a stored OIDC secret that opens under no key, GitHub is in order and yet no GitHub change can take effect |
| AuthConfig.SaveStrandsTheServer | internal/server/admin_auth.go:195-214 | a running server gets there: an admin saves a secret that looks sealed already, the reload fails, and the rollback cannot be written |
| AuthConfig.StrandedServerIsLocked | internal/server/admin_auth.go:74-79 | after that every form is refused and changes nothing, the one that would clear the OIDC settings included |
| AuthConfig.ReloadedIsConsistent | internal/server/admin_auth.go:176-181 | bringing one provider in step with the stored settings keeps the other in step |
| AuthConfig.SavedIsHandled | internal/server/admin_auth.go:182-237 | from what one save or clear leaves behind follows the promise of a whole handler run |
| AuthConfig.AuthServer.ReloadGitHub | internal/server/authconfig.go:123-134 | fails exactly for a configuration that cannot be read or a complete provider without base URL, and then keeps the old provider; otherwise live is the provider of the environment, field by field, if that names one, and else the one of the settings as read, with the stored secret opened |
| AuthConfig.AuthServer.ReloadOIDC | internal/server/authconfig.go:140-168 | fails exactly for a configuration that cannot be read, a refused stored issuer, a failed discovery or a missing base URL; any failure keeps the old provider; otherwise live is the provider of the environment or of the settings, as for GitHub |
| AuthConfig.AuthServer.ReloadAuthProviders | internal/server/authconfig.go:113-118 | startup succeeds exactly if both reloads do; then both live providers are those of the configuration if and only if no ignored read that failed mattered; providers the environment names go live field by field; if it fails, the GitHub provider is the new one exactly if its reload worked, and the OIDC provider is as it was |
| AuthConfig.AuthServer.WriteSettings | internal/store/settings.go:85-105 | the whole batch is applied, empty values deleting their key, or nothing is |
| AuthConfig.AuthServer.Snapshot | internal/server/admin_auth.go:183-190 | records the stored text of the given keys, sealed secrets as they are, and the empty text where the read fails |
| AuthConfig.AuthServer.SealSecret | internal/store/settings.go:55-63 | refuses without a key; otherwise the sealed text is never empty and opens to the secret under that setting's name |
| AuthConfig.AuthServer.RollBack | internal/server/admin_auth.go:210-214 | if the write succeeds, exactly the old settings are back less those whose recording failed; live is the old provider or that of the settings as read, whether or not the second reload fails |
| AuthConfig.AuthServer.WriteAndReload | internal/server/admin_auth.go:205-215 | which settings are stored after each outcome; success makes the provider of the settings as read live; an error leaves live the old provider or that of the settings as read the second time |
| AuthConfig.AuthServer.SaveProvider | internal/server/admin_auth.go:182-216 | on success the values given are stored, a secret given opens to itself, and a blank one keeps the stored one; on error as above; the other provider and its keys are untouched |
| AuthConfig.AuthServer.ClearProvider | internal/server/admin_auth.go:221-237 | exactly that provider's keys are gone and it is off; it fails only if the deletion is not written or a settings read aborts the reload, and which settings remain then |
| AuthConfig.AuthServer.PostGithubSave | internal/server/admin_auth.go:84-110 | refused as incomplete exactly without an id, or without a secret given or found stored; on success the live provider has the new id, the new secret or the one that was stored, and the new organization unless the reload failed to read it |
| AuthConfig.AuthServer.PostOidcSave | internal/server/admin_auth.go:125-155 | the same for the five OIDC settings |
| AuthConfig.AuthServer.HandleAuthConfigPost | internal/server/admin_auth.go:58-174 | live providers that match the configuration still do after any POST, and an error changes nothing at all, unless a written batch could not be taken back, the record of the old values had a gap, or an ignored read failed in the last reload; environment-managed providers cannot be changed; nothing happens while either provider is broken, and otherwise, if the reads work, a provider can always be cleared |
| Bootstrap.AuthStore.BootstrapAdmin | internal/store/auth.go:209-250 | creates flag, admin, org and ownership together, exactly when the flag was unset and neither login nor org name is taken in any case of its letters; otherwise changes nothing |
| Bootstrap.AuthStore.CreateLinkedUser | internal/store/auth.go:120-139 | refused exactly when the login, in any case of its letters, or the identity is taken; the account is no admin and belongs to no org |
| Bootstrap.AtMostOneAdmin | internal/server/auth_handlers.go:48-111 | from an empty database, in every interleaving of setup requests and sign-ons: at most one instance admin, flag set exactly when a user exists, every linked account is younger than the admin and the only one of its identity, and no two accounts share a login in any case of its letters |
| Bootstrap.InvRun | internal/server/oauth_github.go:266-304 | the invariant over every run: a sign-on past the gate has seen the instance bootstrapped |
| Bootstrap.BootstrappedForGood | internal/store/auth.go:99-112 | bootstrapped never goes back to false, and no account is ever changed or lost |
| Bootstrap.SetupAlone | internal/server/auth_handlers.go:52-111 | an undisturbed setup with the right token creates the admin and burns the token; with a wrong one, or once the flag is set or anybody exists, it changes nothing; what it answers |
| Bootstrap.OvertakenSetupIsForbidden | internal/server/auth_handlers.go:92-102 | a setup overtaken after its checks is refused and changes nothing; one whose login or default org is taken fails |
| Bootstrap.FaultsCreateNothing | internal/server/auth_handlers.go:52-97 | an error at any step creates nothing; it ends a sign-on, and ends a setup except in its first two checks, where the program ignores it |
| Bootstrap.SignOnAlone | internal/server/oauth_oidc.go:274-312 | an unknown identity is refused before setup, and afterwards gets a non-admin account, unless both its possible logins are taken |
| Bootstrap.KnownIdentitySignsIn | internal/server/oauth_oidc.go:274-292 | the sign-on of an identity that has an account signs in to that account and changes nothing |
| Bootstrap.TakenMeans | internal/store/auth.go:18-31 | logins and org names are taken up to the case of their letters |
| Timestamps.SecondsCountTicks | internal/store/store.go:598-603 | the count of seconds used as the meaning of a date is elapsed time: each tick of the calendar adds one |
| Timestamps.TicksStayInTheCalendar | internal/store/store.go:598-603 | that calendar holds every second from the start of year 0 to the end of year 9999 |
| Timestamps.CivilOrderIsTimeOrder | internal/store/store.go:598-603 | comparing calendar fields is comparing elapsed seconds |
| Timestamps.FormatOrder | internal/store/store.go:598-603 | comparing the formatted texts byte by byte is comparing calendar fields, years 0 to 9999 |
| Timestamps.TextOrderIsTimeOrderIff | internal/store/store.go:598-603 | comparing stored texts is comparing whole seconds, if and only if the zero time is not compared with year 0 or with a later moment of its own second |
| Timestamps.ParseUndoesFormat | internal/store/store.go:605-614 | reading a stored time back gives it up to the second, the zero time included |
| Sessions.SessionStore.CreateSession | internal/store/auth.go:305-311 | inserts the session unless the token hash is there |
| Sessions.SessionStore.GetSessionByToken | internal/store/auth.go:316-332 | finds a session exactly when its expiry text sorts after the current time's |
| Sessions.SessionStore.PruneExpiredSessions | internal/store/auth.go:335-338 | no lookup at that time can tell that it ran |
| Sessions.TokenFindsItsSession | internal/store/auth.go:313-338 | whatever times the prunes read, a token finds a session exactly when it was created, not deleted since, itself or with its user, not pruned at or after the second it expires in, and that second is after the current one; and finds that session |
| Sessions.PrunesDoNotShow | internal/store/auth.go:335-338 | if no prune read a later clock than the lookup, a session is found exactly when it was not deleted and has not expired |
| Sessions.KeptIsARow | internal/store/auth.go:335-354 | a session neither deleted nor pruned at or after the second it expires in is in the table |
| Sessions.RowsAreKept | internal/store/auth.go:305-354 | and a row in the table is such a session |

## Left out

- The admin console's membership writes (`internal/server/admin.go:408`, `internal/server/admin.go:416`): they bypass the owner guard by design, so the owner and coalition results are about the `/org/{id}` paths only.
- HTTP: CSRF, cookies, redirects, templates, client addresses, the audit log; trimming of form fields and codes (inputs are taken as already trimmed).
- Cryptography, base64, base32 decoding and random draws: parameters. Opening is assumed to undo sealing under the same key, nonce and associated data, decoding to undo encoding, and neither to lengthen its input.
- GitHub, OIDC and DNS exchanges: what they answer is a parameter of each call; endpoints discovered for an OIDC issuer are not part of the provider value.
- The SQL engine, migrations, pragmas and backup. A database error aborts a request or fails a write; settings reads that fail are modelled for the provider configuration.
- Case folding is that of ASCII letters, as in the collation of logins and org names; the program's lower-casing of repository names and limiter keys folds other letters too.
- The JSON lexer: the token sequence is the input, and a lexing error is the end of it.
- `GetRun`, `ListRepos`, metrics and admin lists; session `last_seen`.
- Enrolment and removal of one-time codes on the account page: only the claim that burns a code on enrolment is a step of the replay model.
- A login's clock reading and its reservation are one step, as are the clock reading and the insert of a claim. In the program the reading comes first, so two reservations can carry times in the other order.
- The length of a wait for a hashing slot: running out of it is an event that may happen at any time.
- Limiter.GrantsAreAccountedFor: does not cover `fail`, because `fail` counts past the ceiling; login and account code never call it.
- LoginLimits.AtMostFiveAnswers: stops at the next success under the key, because success clears the bucket for everybody, and at one window's length, because then a new bucket opens.
- Sessions.TokenFindsItsSession: asks that token hashes are never drawn twice, and that times are in years 1 to 9999 and not the zero time.
- Timestamps.ParseUndoesFormat: covers the stored form; other RFC 3339 texts (offsets, fractions), which the program never writes, are read as the zero time by the model.
- SecretBox.SeedStore.SetUserTOTP: a text that already starts with the sealing prefix is stored as it is and then does not read back; no caller passes one.
- AuthConfig.AuthServer.SealSecret: a secret that itself starts with the sealing prefix is stored as it is, so nothing is promised about what it opens to.
