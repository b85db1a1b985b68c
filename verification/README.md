# Verified core of the sxcar backend

A Dafny 4.11 model of the parts of the Axum/SQL backend that carry real invariants, with proofs. SQL
tables are maps, sequences or sets of rows, one SQL statement is one atomic step, clocks and identifiers
are parameters. Handlers and loops of the source are methods; each is proved against a specification
function, and what the source promises is proved about that specification for all inputs, runs or
reachable states.

`dafny verify dfyconfig.toml` checks the whole project.

| file | what it models |
|---|---|
| `Base32.dfy` | the base32 codec of the TOTP secrets: the two bit-accumulator loops over a 64-bit word, specified on bit strings (section 6 of RFC 4648); the encrypted blob; the second-factor hand-off |
| `RefreshTokens.dfy` | refresh-token rotation: the SQL statements, the sequential handlers, and every interleaving of concurrent requests at statement granularity |
| `AuthCodes.dfy` | single-guess verification codes |
| `StaffLockout.dfy` | the staff login lock |
| `MfaToken.dfy` | the signed token between password and second factor |
| `RateLimit.dfy` | the token bucket (`TokenBucket`) and the INCR/EXPIRE counter (`FixedWindow`) |
| `Billing.dfy` | the RevenueCat webhook and the stored subscription tier |
| `Presign.dfy` | percent-encoding (sections 2.1 and 2.3 of RFC 3986) and the canonical query of a presigned URL |
| `Photos.dfy` | the primary photo and its copy in the profile row |
| `Stories.dfy` | grouping of the story list |
| `Chat.dfy` | message pagination (`ChatHistory`) and the per-connection frame filter (`ChatFilter`) |
| `AgeGate.dfy` | the age card of onboarding |
| `Text.dfy`, `Wrappers.dfy` | splitting, decimal numbers, optional values |

Results where the code and its own words differ, or where a natural claim is false; the code is followed.
Except in refresh rotation, requests are taken one at a time:

- The comment of `decode_base32` promises an error for incompatible lengths. There is no such check:
  `LengthIsNotChecked` says on exactly which strings the promise holds all the same, and `EncodeDecode`
  which strings are canonical.
- Revoking all of a user's tokens does not end a rotation that has claimed its token but not yet stored
  the next one. `RevokeAllSettles` proves that the old sessions are over if and only if there is none.
- The token-bucket bound over real time fails on an interval in which the clock steps back and returns. Over an
  interval that does not end before it starts, all limiters keep it, whatever was called before, if and only if
  the clock never steps back in it (`BoundedExactlyOnSteadyClock`); `RealTimeExcess` says by how much it can be
  exceeded, and `AdmissionIsExact` holds for every sequence of times, over the time the limiter has seen.
- The Redis limiter calls itself a sliding window. Without faults it is one if and only if its maximum is at most one
  (`SlidingWindowExactly`); every interval as long as the window admits at most twice the maximum if and only
  if the window is positive or the maximum zero (`TwiceBoundedExactly`).
- A key whose opening check loses its EXPIRE, or the reply to its INCR, never starts anew and passes at most the
  rest of its maximum (`LostExpire`); that happens if and only if one of the two is lost
  (`LostExpireBlocksExactly`). Checks that fail open, by a fault or by a count beyond 32 bits, pass beside the
  counter.
- A repeated grant is idempotent if and only if it carries a usable expiry or no time has passed
  (`RetryIsIdempotent`).
- A stored tier falls below the user's rows if and only if a grant of a higher plan is not followed by its tier
  update, which fails or is never reached because the insert went unacknowledged, or a higher plan is bought by
  simulation, which never updates the tier (`DeliverKeepsCovers`, `PurchaseKeepsCovers`, `RunKeepsTiers`).
- A retry undoes a failed delivery in every respect that is in force, and entirely unless an insert that was
  reported as failed took effect (`RetriesHeal`).
- Wrong passwords are spread over time only as far as they are recorded: they are exactly the recorded failures
  if and only if no increment fails (`AllGuessesCountedExactly`).
- The comment on the revocation helper says that a cancellation ends access at once; the webhook changes no
  row and no tier on it (`CancellationsKeepAccess`).
- A gallery whose first photo is no upload of kind "profile", such as that of the onboarding card, has no
  primary photo (`LosesPrimaryExactly`).
- The copied photo key goes wrong if and only if the copy after a first profile upload fails, or the key is
  written without a look at the photos and is not a primary photo's: by a profile update, a late profile row or
  an anonymisation (`StepConsistent`, `RunConsistent`).
- Paging back misses messages of one instant if and only if a page ends between them: while only recent
  messages are committed (`Recent`), `LoadHistory` is complete exactly when the limit cuts the conversation
  clean (`CutsClean`). Every limit does if and only if
  the timestamps are distinct (`EveryLimitIsSafe`), and the same goes for a limit of one
  (`TiesLoseMessages`).
- The membership cache of a connection is invisible if and only if later lookups say the same as earlier ones
  (`CacheIsInvisible`).

Assumptions: hashing of tokens is injective; the laws in `Aead.Lawful` and `Primitives.Lawful` hold of
AES-GCM, HMAC, base64url and UTF-8 (`SomeAeadIsLawful` and `SomePrimitivesAreLawful` show that they can be
met); `f64` is read as real.

## Model

| member | source | states |
|---|---|---|
| Base32.RawToB32 | backend/crates/auth_admin/src/totp.rs:138-165 | the encoder's loops over a 64-bit accumulator that sheds high bits compute the unpadded encoding of section 6 of RFC 4648 |
| Base32.EncodedBits | backend/crates/auth_admin/src/totp.rs:145-165 | the letters say the input's bits followed by the fewest zeros that complete a quintet, and there are ceil(8n/5) of them |
| Base32.DecodeBase32 | backend/crates/auth_admin/src/totp.rs:170-206 | empty input and the first character outside A to Z and 2 to 7 are the errors; every other string decodes to its whole octets |
| Base32.DecodedBits | backend/crates/auth_admin/src/totp.rs:191-205 | decoding n letters gives floor(5n/8) octets whose bits are a prefix of the letters' bits |
| Base32.DecodeEncode | backend/crates/auth_admin/src/totp.rs:134-206 | decoding undoes encoding on every byte string |
| Base32.EncodeDecode | backend/crates/auth_admin/src/totp.rs:138-206 | encoding the decoding of s gives s back iff the length of s modulo 8 is 0, 2, 4, 5 or 7 and the unused bits are zero |
| Base32.LengthIsNotChecked | backend/crates/auth_admin/src/totp.rs:167-206 | every non-empty string of letters is accepted, so the comment's promise to refuse a length that no encoding has holds on exactly the strings with a wrong letter or of a length that is 0, 2, 4, 5 or 7 modulo 8 |
| Base32.Section6Alphabet | backend/crates/auth_admin/src/totp.rs:170-176 | the letter of each of the 32 values is that of section 6 of RFC 4648, both ways |
| Base32.BlobLayout | backend/crates/auth_admin/src/totp.rs:64-91 | a blob is 12 bytes of nonce and the sealing under the key and that nonce, 16 bytes longer than the secret |
| Base32.DecryptsExactlyEncryptions | backend/crates/auth_admin/src/totp.rs:69-114 | a blob decrypts to a message iff it is 12 bytes of nonce and the sealing of the message under the key and that nonce; anything else is refused |
| Base32.TwoFactorHandOff | backend/crates/api/src/admin/handlers.rs:557-562 | encrypt, decrypt, encode, decode hands the enrolled secret to the code check; an empty one is refused |
| RefreshTokens.Database.StoreRefreshToken | backend/crates/db/src/users.rs:161-176 | inserts a live row, or nothing when the hash exists |
| RefreshTokens.Database.RevokeAndClaimRefresh | backend/crates/db/src/users.rs:219-250 | claims exactly a live token, revoking that row only, and tells a reused token from an unknown one |
| RefreshTokens.Database.RevokeAllRefresh | backend/crates/db/src/users.rs:262-270 | revokes every live token of the user and nothing else |
| RefreshTokens.Database.Refresh | backend/crates/api/src/auth/handlers.rs:129-167 | the answer in every case, by the columns of the row, the user's status and the minted hash, and the whole table after an uninterrupted refresh |
| RefreshTokens.Database.Logout | backend/crates/api/src/auth/handlers.rs:169-178 | the presented token is no longer claimable, other rows are unchanged |
| RefreshTokens.RefreshExchanges | backend/crates/api/src/auth/handlers.rs:129-167 | an answered refresh exchanges one live token for another, reuse leaves its user none, other users keep theirs |
| RefreshTokens.RunKeepsInv | backend/crates/db/src/users.rs:219-270 | over every interleaving each session has at most one holder, a live token or a rotation under way, and no token is claimed twice |
| RefreshTokens.AnsweredTokensAreEarned | backend/crates/api/src/auth/handlers.rs:14-167 | over every interleaving an answered token was stored unused for a user who logged in, or whose token, neither revoked nor expired, this request claimed and who was active afterwards |
| RefreshTokens.RequestMoves | backend/crates/api/src/auth/handlers.rs:129-167 | a request moves exactly by its next statement, its failure or its beginning, to where the tables say; an answer is never taken back |
| RefreshTokens.ErrorsAnswer | backend/crates/api/src/auth/handlers.rs:138-166 | a failed statement stores and approves nothing; the answer is 401 to a reused token and 500 otherwise |
| RefreshTokens.InsertAnswers | backend/crates/api/src/auth/handlers.rs:14-31 | an INSERT of a login or an approved rotation with an unused hash stores its user's token and answers it iff it is acknowledged |
| RefreshTokens.RowChanges | backend/crates/db/src/users.rs:161-270 | no statement removes a row; a row comes only by an INSERT and is revoked exactly by the statements that name it, at that instant |
| RefreshTokens.RestChanges | backend/crates/api/src/auth/handlers.rs:14-167 | statuses, clock, sessions, stored logins and claims change only by the statement that changes each |
| RefreshTokens.RotationNeverMultiplies | backend/crates/api/src/auth/handlers.rs:14-31 | live tokens plus rotations under way of a user never exceed the logins whose token was stored, acknowledged or not |
| RefreshTokens.NoDoubleSpend | backend/crates/db/src/users.rs:213-237 | each token is claimed by at most one request over every interleaving |
| RefreshTokens.RevocationIsForever | backend/crates/db/src/users.rs:224-270 | rows are never removed and a revoked row never changes again |
| RefreshTokens.EndedStaysEnded | backend/crates/api/src/auth/handlers.rs:129-167 | a session without a holder never gets one back |
| RefreshTokens.LogoutEndsSession | backend/crates/api/src/auth/handlers.rs:169-178 | logging out with a live token ends its session for good |
| RefreshTokens.RevokeAllSettles | backend/crates/api/src/auth/handlers.rs:147-152 | a revoke-all ends the user's earlier sessions for good iff no rotation of the user is between claim and store at that moment |
| RefreshTokens.UninterruptedRefresh | backend/crates/api/src/auth/handlers.rs:129-167 | the sequential handler agrees with the uninterrupted run of its statements |
| AuthCodes.CodeTable.IssueAuthCode | backend/crates/db/src/users.rs:272-289 | appends one unconsumed row |
| AuthCodes.CodeTable.ConsumeAuthCode | backend/crates/db/src/users.rs:302-337 | true iff an unconsumed, unexpired row of this user, kind and hash is there; then one newest such row is consumed, otherwise every unconsumed, unexpired row of the user and kind |
| AuthCodes.StepSpends | backend/crates/db/src/users.rs:302-337 | each guess of a run spends rows as that method does |
| AuthCodes.OneGuessPerCode | backend/crates/db/src/users.rs:291-337 | over any run the number of guesses that met a live code plus the number of unconsumed rows never exceeds the number of codes issued |
| AuthCodes.WrongGuessLocksOut | backend/crates/db/src/users.rs:324-336 | after a wrong guess no code of the user and kind is live until another is issued |
| StaffLockout.StaffRow.IncrementFailedLogin | backend/crates/db/src/staff.rs:123-147 | counts the failure and from the fifth on sets the lock fifteen minutes ahead |
| StaffLockout.StaffRow.UpdateLastLogin | backend/crates/db/src/staff.rs:100-121 | records time and address, clears the counter and leaves the lock column |
| StaffLockout.StaffRow.Login | backend/crates/api/src/admin/handlers.rs:488-527 | the answer and the row of every attempt, in the row's columns: lock check, then password, then counter or reset, database and hash errors included |
| StaffLockout.RunAnswers | backend/crates/api/src/admin/handlers.rs:488-527 | over any run a token is answered iff a right password was evaluated and its reset acknowledged, the lock iff it stands, a refusal iff the account is inactive or a wrong password was evaluated, counted or not |
| StaffLockout.CounterCounts | backend/crates/db/src/staff.rs:132-141 | between successes the counter counts the recorded failures, and from five on the lock stands fifteen minutes after the latest |
| StaffLockout.FailuresAreSpread | backend/crates/api/src/admin/handlers.rs:502-514 | n recorded failures without a success between them span at least (n - 5) * 15 minutes from the fifth to the n-th, and the list of them is complete and in order |
| StaffLockout.LockedRowIsFrozen | backend/crates/api/src/admin/handlers.rs:502-506 | while the lock stands no attempt changes the row |
| StaffLockout.LostIncrementsCountNothing | backend/crates/api/src/admin/handlers.rs:511-514 | wrong passwords whose increments fail are all evaluated and leave the row as it was |
| StaffLockout.AllGuessesCountedExactly | backend/crates/api/src/admin/handlers.rs:508-514 | the recorded failures are all the wrong passwords evaluated iff none of their increments fails |
| StaffLockout.GuessesAreSpread | backend/crates/api/src/admin/handlers.rs:502-514 | then n wrong passwords evaluated without a success between them span at least (n - 5) * 15 minutes from the fifth to the n-th |
| MfaToken.IssuedTokenLives | backend/crates/auth_admin/src/mfa_token.rs:29-108 | an issued token gives its staff id back, whatever characters it has, at exactly the times up to 900 seconds after issue, and is expired later |
| MfaToken.AcceptedExactlyGenuine | backend/crates/auth_admin/src/mfa_token.rs:60-108 | a token is accepted as a staff id iff its bytes are the UTF-8 of id, bar and expiry followed by their HMAC under the secret, and that expiry has not passed |
| MfaToken.IssuedBytes | backend/crates/auth_admin/src/mfa_token.rs:29-42 | an issued token's bytes are those with the decimal instant 900 seconds later |
| MfaToken.AcceptedIsAuthenticated | backend/crates/auth_admin/src/mfa_token.rs:73-82 | the last 32 bytes of an accepted token are the HMAC under the secret of all the bytes before |
| MfaToken.RefusalsExactly | backend/crates/auth_admin/src/mfa_token.rs:60-108 | each refusal, in the order of the checks, with the input it belongs to |
| Text.ParsePrint | backend/crates/auth_admin/src/mfa_token.rs:98-100 | parsing a printed 64-bit integer gives it back |
| Text.ParsesExactly | backend/crates/auth_admin/src/mfa_token.rs:98-100 | what parses as a 64-bit integer, and as which: decimal digits after an optional sign, within range |
| TokenBucket.InMemoryRateLimiter.Check | backend/crates/api/src/ratelimit.rs:27-40 | one check in the columns of the bucket: refill, cap, stamp, take one token if there is one |
| TokenBucket.LevelIsLeastBudget | backend/crates/api/src/ratelimit.rs:29-31 | the lazily refilled level is the minimum over earlier calls of capacity plus credits minus admissions since |
| TokenBucket.AdmissionIsExact | backend/crates/api/src/ratelimit.rs:27-39 | for any call times a call passes iff with it the admissions since every call up to it fit capacity plus refill over the time seen |
| TokenBucket.AdmissionOnSteadyClock | backend/crates/api/src/ratelimit.rs:27-39 | with non-decreasing times the same over real time |
| TokenBucket.IntervalBound | backend/crates/api/src/ratelimit.rs:27-39 | with non-decreasing times any interval admits at most capacity plus rate times its length |
| TokenBucket.SeenTimeBound | backend/crates/api/src/ratelimit.rs:27-39 | for any call times any interval admits at most capacity plus the refill over the time seen in it |
| TokenBucket.RealTimeExcess | backend/crates/api/src/ratelimit.rs:30-32 | the bound over real time is exceeded by at most the refill over the total of the clock's steps back |
| TokenBucket.BoundedExactlyOnSteadyClock | backend/crates/api/src/ratelimit.rs:27-39 | over an interval of calls that does not end before it starts every limiter keeps the real-time bound, from a full bucket or after any earlier calls, iff the times in it never decrease |
| TokenBucket.ReturnBreaksBound | backend/crates/api/src/ratelimit.rs:30-32 | whenever the clock has stepped back and returned, the limiter of capacity one that refills one token over the time seen exceeds the bound |
| TokenBucket.ClockBackBreaksBound | backend/crates/api/src/ratelimit.rs:30-32 | for every step back by d and a rate of one token per d, an interval of no length admits two where the capacity is one |
| TokenBucket.CheckDependsOnOwnCalls | backend/crates/api/src/ratelimit.rs:28-29 | calls of other addresses have no effect on a check |
| FixedWindow.RedisRateLimiter.Check | backend/crates/api/src/ratelimit.rs:74-102 | one check with its faults: fails open without a connection, without an INCR, without its reply or with a count beyond 32 bits, ignores a lost EXPIRE, touches one key |
| FixedWindow.AnswerIsAdmitted | backend/crates/api/src/ratelimit.rs:83-101 | the first 2^32 - 1 checks of a key pass iff their count is within the maximum |
| FixedWindow.TwiceTheMaximum | backend/crates/api/src/ratelimit.rs:83-101 | any interval as long as a positive window admits at most twice the maximum, whichever way keys vanish at their expiry instant |
| FixedWindow.ZeroWindowLimitsNothing | backend/crates/api/src/ratelimit.rs:93-101 | an EXPIRE of zero seconds deletes the key, so a positive maximum admits everything |
| FixedWindow.TwiceBoundedExactly | backend/crates/api/src/ratelimit.rs:83-101 | the bound of twice the maximum holds of every run iff the window is positive or the maximum is zero |
| FixedWindow.SlidingWindowExactly | backend/crates/api/src/ratelimit.rs:42-52 | for a positive window, every interval shorter than it admits at most the maximum on every run iff the maximum is at most one |
| FixedWindow.BurstExceeds | backend/crates/api/src/ratelimit.rs:42-52 | for every maximum of at least two, half a window can admit one less than twice the maximum |
| FixedWindow.LostExpire | backend/crates/api/src/ratelimit.rs:93-101 | whatever faults follow, a counter without expiry only grows, and at most the rest of the maximum is admitted by it |
| FixedWindow.RestartsExactly | backend/crates/api/src/ratelimit.rs:83-101 | a stored counter ever starts anew iff it has an expiry |
| FixedWindow.BlockedExactly | backend/crates/api/src/ratelimit.rs:83-101 | a stored counter ever admits more than a positive maximum again iff it has an expiry |
| FixedWindow.LostExpireBlocksExactly | backend/crates/api/src/ratelimit.rs:83-101 | a key is blocked for good iff the check that opens it loses the reply to its INCR or its EXPIRE, for every window |
| Billing.ConstantTimeEq | backend/crates/api/src/billing/webhook.rs:60-69 | true iff the byte strings are equal |
| Billing.MapPlanCode | backend/crates/api/src/billing/webhook.rs:78-90 | the first known entitlement, else the known product id, else none |
| Billing.BillingDb.GrantSubscription | backend/crates/api/src/billing/subscriptions.rs:84-118 | expires the active store rows of user and plan, then adds one active row; what is left when either statement fails or goes unacknowledged |
| Billing.BillingDb.ResolveSubscriptionTier | backend/crates/api/src/premium.rs:122-158 | the stored tier is unlimited if an unlimited row is in force, else xtra if a vibra_plus row is, else free |
| Billing.BestPlanGivesBestTier | backend/crates/api/src/premium.rs:126-149 | the ordered query and the match give the maximum over the rows in force |
| Billing.BillingDb.Webhook | backend/crates/api/src/billing/webhook.rs:92-306 | one delivery with its faults, in columns: the exact answer, the reason of an ignored event and server errors included, and every row, tier and record after it; no change without the right secret |
| Billing.DeliversInColumns | backend/crates/api/src/billing/webhook.rs:134-303 | which rows a delivery retires and adds, with which values, and when tier and record change, by event kind, named plan and statement outcome |
| Billing.ExpiryIs | backend/crates/api/src/billing/webhook.rs:233-239 | a granted row expires at the event's milliseconds cut towards zero to whole seconds if they are within the calendar, and 30 days from now otherwise |
| Billing.BillingDb.SimulatePurchase | backend/crates/api/src/billing/simulate.rs:66-157 | the gate, the price, the refusal of a plan in force and every column of the inserted row, with the answer of each branch; the tier stays |
| Billing.HandledEventSetsTier | backend/crates/api/src/billing/webhook.rs:251-284 | a completed grant or expiration whose tier update succeeds leaves the one tier that is the maximum over rows in force: unlimited, xtra or free |
| Billing.DeliverKeepsCovers | backend/crates/api/src/billing/webhook.rs:233-284 | one delivery leaves a tier below its rows iff a grant of a higher plan takes effect without its tier update |
| Billing.PurchaseKeepsCovers | backend/crates/api/src/billing/simulate.rs:101-145 | a simulated purchase leaves a tier below its rows iff it adds a row of a higher plan |
| Billing.OthersUntouched | backend/crates/api/src/billing/webhook.rs:232-289 | a delivery or a simulated purchase changes no row and no tier of another user |
| Billing.RunKeepsTiers | backend/crates/api/src/billing/subscriptions.rs:79-150 | over any run of deliveries and simulated purchases with any faults at most one active store row per user and plan, and tiers stay at or above what rows in force justify iff every grant of a higher plan is followed by its tier update and no higher plan is bought by simulation |
| Billing.CancellationsKeepAccess | backend/crates/api/src/billing/webhook.rs:258-265 | any number of cancellations changes no row and no tier |
| Billing.RetriesHeal | backend/crates/api/src/billing/webhook.rs:134-141 | deliveries answered with a server error leave no tier, record or active row behind once a retry completes, and nothing at all if no failed insert took effect |
| Billing.DuplicatesChangeNothing | backend/crates/api/src/billing/webhook.rs:134-154 | recognised redeliveries of recorded events inserted anywhere leave the final state unchanged |
| Billing.RecordedForever | backend/crates/api/src/billing/webhook.rs:291-303 | a completed and recorded event counts as duplicate from then on |
| Billing.RetryIsIdempotent | backend/crates/api/src/billing/webhook.rs:233-250 | completing a grant again, after a lost record or a failed lookup, keeps the active rows iff the event has a usable expiry or no time has passed |
| Presign.UriEncodeLoop | backend/crates/api/src/media.rs:84-96 | the encoding loop, with and without encoding slashes |
| Presign.DecodeEncode | backend/crates/api/src/media.rs:84-96 | percent-decoding undoes the encoding for every byte string |
| Presign.Injective | backend/crates/api/src/media.rs:84-96 | two byte strings with the same encoding are equal |
| Presign.Alphabet | backend/crates/api/src/media.rs:87-93 | only letters, digits, - . _ ~, percent signs and unencoded slashes come out |
| Presign.OctetIs | backend/crates/api/src/media.rs:84-96 | which octets pass unchanged, and that any other becomes a percent sign and its two upper-case hexadecimal digits |
| Presign.EncodeConcat | backend/crates/api/src/media.rs:84-96 | encoding goes octet by octet |
| Presign.PathKeepsSegments | backend/crates/api/src/media.rs:126 | the encoded object path splits into the encoded segments of the key |
| Presign.QueryRoundTrip | backend/crates/api/src/media.rs:141-145 | splitting on the ampersand, then on the equals sign, then decoding recovers every parameter list |
| Presign.QueryIs | backend/crates/api/src/media.rs:141-145 | the query is encoded key, equals sign and encoded value of each parameter, joined by ampersands |
| Presign.SortSorts | backend/crates/api/src/media.rs:140 | the sort by key gives a sorted permutation of every list |
| Presign.SortIsStable | backend/crates/api/src/media.rs:140 | parameters of the same key keep their order |
| Presign.SortKeepsExactly | backend/crates/api/src/media.rs:140 | and keeps exactly the sorted lists as they are |
| Presign.PresignedQuery | backend/crates/api/src/media.rs:123-145 | the sorted and encoded query carries exactly the six parameters, with the credential made of access key, date and region, for every region, access key, date and lifetime |
| Presign.SigningParamsSorted | backend/crates/api/src/media.rs:132-140 | the six keys are in byte order as they are listed |
| Photos.Gallery.CreatePhoto | backend/crates/api/src/media.rs:298-357 | the inserted row's columns and the key copy: a first upload of kind profile is primary, its position is the number of photos, its key is copied unless that statement fails; any other insert is at position 0 and not primary |
| Photos.Gallery.DeletePhoto | backend/crates/db/src/photos.rs:54-121 | deleting the primary photo promotes a lowest-position one with its key, or clears the key |
| Photos.Gallery.SetPrimaryPhoto | backend/crates/db/src/photos.rs:132-174 | exactly the chosen photo of its owner becomes primary, with its key |
| Photos.Gallery.PatchProfile | backend/crates/api/src/profile.rs:392-408 | the profile update writes whatever key it is given into the profile row |
| Photos.Gallery.CreateProfile | backend/crates/api/src/onboarding.rs:312-324 | a profile row created by another card starts without a key |
| Photos.Gallery.AnonymizeProfile | backend/crates/db/src/users.rs:604-622 | anonymising clears the key |
| Photos.StepConsistent | backend/crates/api/src/profile.rs:392-398 | one step keeps a user's gallery consistent iff it is another user's, or safe: a first profile upload copies its key, an update writes a primary photo's, a new or cleared row's user has no primary photo, or there is no row to write |
| Photos.SetPrimaryRestores | backend/crates/db/src/photos.rs:132-174 | choosing a primary photo makes any gallery consistent again |
| Photos.RunKeepsOnePrimary | backend/crates/db/src/photos.rs:54-174 | over any run no user comes to have two primary photos |
| Photos.RunConsistent | backend/crates/db/src/photos.rs:54-174 | over any run, profile updates, late profile rows and failed copies included, the profile row always holds the key of the one primary photo, or null without one, iff every step of the user is safe |
| Photos.RunFromEmpty | backend/crates/db/src/photos.rs:54-174 | from an empty gallery: never two primary photos, a right key iff all steps of the user are safe, and a primary one shown with uploads of kind profile only |
| Photos.ProfileOnlyRunShows | backend/crates/api/src/media.rs:299-342 | over any run in which the user's inserts are uploads of kind profile, a user with photos has a primary one |
| Photos.UploadsAreNumbered | backend/crates/api/src/media.rs:299-325 | over profile uploads without deletions the k-th upload of a user is at position k |
| Photos.EarliestIsPromoted | backend/crates/db/src/photos.rs:82-106 | deleting the primary photo then promotes the earliest upload left |
| Photos.LosesPrimaryExactly | backend/crates/api/src/media.rs:343-357 | a user comes to have photos and no primary iff a photo that is no upload of kind profile is inserted into an empty gallery |
| Photos.RegainsPrimaryExactly | backend/crates/db/src/photos.rs:54-174 | that ends iff the user chooses a primary photo or deletes the last photo |
| Stories.ListStories | backend/crates/api/src/stories.rs:180-252 | every row gets its viewed mark and its count; one pass yields non-empty groups of one user cut where the user changes, headed by their first story; their concatenation is the annotated input; all_viewed is exact |
| Stories.GroupingUnique | backend/crates/api/src/stories.rs:209-241 | that contract determines the groups |
| Stories.UsersIncrease | backend/crates/db/src/stories.rs:74 | with rows ordered by user no user has two groups |
| Stories.GroupHoldsItsUser | backend/crates/api/src/stories.rs:209-241 | each group holds exactly its user's rows in order |
| ChatHistory.ListMessages | backend/crates/db/src/chat.rs:133-177 | a page is the newest rows of the conversation before the bound, at most the limit, oldest first |
| ChatHistory.PageStep | backend/crates/db/src/chat.rs:133-177 | a conversation is cut clean iff a page of it leaves out only messages older than the page and those are cut clean |
| ChatHistory.LoadHistory | backend/crates/api/src/chat.rs:598-610 | paging back while any messages are committed ends with messages of the conversation, in order, nothing twice; with all of the first request when timestamps are distinct; and, when what is committed meanwhile is recent, with exactly those iff the limit cuts them clean |
| ChatHistory.TiesLoseMessages | backend/crates/db/src/chat.rs:146-148 | pages of one are complete iff no two messages of the conversation share an instant |
| ChatHistory.EveryLimitIsSafe | backend/crates/api/src/chat.rs:608-610 | every limit is complete iff no two messages share an instant |
| ChatFilter.SendLoop | backend/crates/api/src/chat.rs:63-104 | sends in order exactly the frames whose conversation's lookup at its first frame said member, up to a failed send; each conversation is looked up once |
| ChatFilter.CacheIsInvisible | backend/crates/api/src/chat.rs:84-94 | cached and uncached filter agree on every stream of frames iff later lookups of a conversation say member exactly when earlier ones do |
| ChatFilter.StableMembership | backend/crates/api/src/chat.rs:84-98 | with unchanging membership and answered lookups the cache makes no difference |
| AgeGate.AgeCountsBirthdays | backend/crates/px_core/src/validation.rs:18-24 | the age is at least n iff the n-th birthday is not after today |
| AgeGate.AgeCardIsExact | backend/crates/api/src/onboarding.rs:325-342 | the card accepts exactly 18 to 120 and stores today's date so many years ago, or 28 February where that year lacks a 29th, which gives the submitted age back; it fails only where the birth year leaves the calendar |
| AgeGate.AgeIsMonotone | backend/crates/px_core/src/validation.rs:26-29 | an adult stays an adult at every later date |

## Left out

- Cryptographic primitives, JWT, TOTP code generation, base64url and UTF-8: parameters with laws, or absent.
- HTTP routing, JSON shaping, status mapping beyond the codes named, Redis and Postgres connectivity.
- Database errors outside refresh rotation, the staff login, the webhook and the Redis limiter.
- Interleaving of the statements of one handler, except in refresh rotation; concurrent staff logins could pass the lock check together.
- RefreshTokens.Database.StoreRefreshToken: an INSERT that commits while its acknowledgement is lost is a step of the interleaved requests (`Insert`), not of this sequential method.
- Hard deletion of users, which removes their rows by cascade.
- StaffLockout.StaffRow.IncrementFailedLogin: does not model the 32-bit counter, which the lock keeps far from overflow.
- FixedWindow.TwiceTheMaximum: counts the checks within the maximum; a check whose count is beyond 32 bits fails open instead, which takes more than 2^32 checks in one window.
- Billing.BillingDb.Webhook: the application clock and the database clock are one instant within a delivery.
- Billing.BillingDb.SimulatePurchase: price id, period and the returned names are not in the modelled row; two concurrent purchases of one plan can both pass the check.
- Photos.Gallery.CreatePhoto: download, blur rendition, key ownership and the 32-bit cast of the position are not modelled.
- Photos.Gallery.PatchProfile: the other profile fields, and that nothing is written without a configured store, are not modelled.
- Presign.PresignedQuery: the signature and the formatting of the date from a clock are not modelled; date strings are arbitrary.
- Stories.ListStories: media fields and timestamps of a story are not modelled, they are copied unchanged.
- ChatHistory.LoadHistory: the paging client is the application's; rows other than by conversation and time are opaque, and none is deleted meanwhile.
- ChatFilter.SendLoop: lagging or closing of the broadcast channel is not modelled.
- `create_group` member de-duplication, `decimal_string_to_minor`, `sanitize_ext`, `hex_lower`, `features_for_tier`: each is settled by reading one body.
- PostGIS queries, image work, admin catalogs, preferences, events, the shop, the mobile and marketing applications.
