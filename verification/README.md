# A verified model of the zz-drop server

This project models the four stateful or arithmetic cores of the server in Dafny and proves their
properties over all inputs and all runs.

1. **Accounts and two-step login** (`AuthTables`, `AuthServer`, `AuthEffects`, `AuthInvariants`,
   `AuthAnswers`, `AuthRuns`, `LoginRuns`, `SessionRuns`, `LimiterRuns`, `FactorRuns`,
   `RecoveryRuns`). The handlers of
   `src/routes/auth.rs` and `src/routes/totp.rs` are methods of a class that changes its tables
   statement by statement.
   Each is proved equal to a step function on the tables. `AuthAnswers` says what each handler
   answers and changes, case by case and in both directions, without that function; runs of the
   steps carry the whole-run results: where every session, challenge, enrollment and activation comes
   from, that challenges and recovery rows are used once, that the registered password, the
   authenticator's codes and the issued codes work, and what the limiter allows.
   `EnrollMachine` runs the statements of any number of enrollments, activations, logins, second
   factors and disables interleaved, with failures and aborted transactions; `EnrollOverlap` bounds
   what overlap can do to one enrollment, recovery row or challenge, and `EnrollExtremes` builds the
   runs that reach the bounds. `EnrollAtomic` and `EnrollSequential` tie the two models: an
   undisturbed request of the machine is its handler, so every sequential run is an interleaved one.
2. **Profile store** (`ProfileTable`, `ProfileStore`, `ProfileMachine`, `ProfileRuns`,
   `ProfileSerial`, `ProfileOverlap`, `ProfileQuota`, `ProfileAnswers`, `ProfileProgress`). `ProfileStore` is the handlers run alone,
   against an abstract book of aliases and their put histories. `ProfileMachine` runs them
   interleaved, one SQL statement at a time; `ProfileSerial` and `ProfileOverlap` say exactly when
   that is as good as running whole requests in turn, `ProfileAnswers` what each request answers in
   terms of the rows and the stored PUTs, and `ProfileProgress` when it succeeds.
3. **Sliding-window limiter** (`RateLimit`, `RateLimitRuns`): the pruned list against the
   never-pruned history, alone and with requests in flight.
4. **Calendar and codes** (`Calendar`, `IsoFormat`, `IsoOrder`, `Totp`, `RecoveryCodes`, with
   `Bits`, `Decimal`, `Division` and `Intervals` as helpers and `MachineInts` for the integer widths).

## Assumptions

- SQLite statements are atomic. A transaction works on a private copy and its commit succeeds
  only if no other commit came since the copy was taken (first committer wins). AUTOINCREMENT ids
  are not used again. `fetch_optional` returns the matching row with the lowest id.
- Passwords, hashes, HMAC, decryption, e-mail plausibility and lower-casing are arbitrary functions
  given to the model. `AliasRules` stands for `Alias::new`; the one law asked of it is that
  lower-casing a well-formed alias gives a well-formed alias.
- Tokens are fresh, and their hash does not collide on the minted tokens and the presented one, only
  where `SessionRuns` says so (`FreshTokens`, `Injective`, `NoCollision`) and in the two results of
  `FactorRuns` that follow a challenge from its login; nothing else needs it.
- In the account model a request reads the clock once, where the code reads it again for expiry,
  check, code, record and mint. Clocks are arbitrary there, except that the limiter class and the
  theorems of `LimiterRuns`, `FactorRuns` and `RecoveryRuns` that count failures require times that do not go back, and the in-flight limiter runs move
  the clock only forwards.
- In `RecoveryRuns` a code verifies against the hash stored with it (`HonestMaterial`).
- `secs_to_civil`, `format_iso` and the TOTP steps use the source's integer widths, with no
  operation that overflows or loses value. Expiry times are unbounded naturals, so the casts of
  `expires_at` are exact; the cast of the alias count to 32 bits is modelled as it is.
- Strings are the characters the source compares; in the account model one character is one
  UTF-8 byte, as `len()` counts them.

## Where the code and its comments differ

The model follows the code.

- `get_blob` is described as 404 "if not yet uploaded"; it is 404 after a PUT of an empty body too.
- `secs_to_civil` is described as exact over the i64 range; it takes a u64 and is proved exact for
  every u64.
- `pending_until` reads as an expiry of a pending enrollment; no code reads it, and nothing here
  says that pending enrollments expire.
- `disable` asks for "a current valid TOTP code or one recovery code"; a recovery code also disables
  an enrollment that is still pending.
- `delete` checks the owner and deletes in two statements, so two deletes of one alias can both be
  answered success, and `create` checks its quota likewise; `ProfileOverlap` gives such runs, and the
  numbers of overlapping creates and deletes up to which all runs are runs of whole requests.
- A challenge is called single-use because it is deleted, and a recovery row because it is marked; both
  happen in a statement after the check, and the result of that statement is ignored. `EnrollOverlap`
  and `EnrollExtremes` give the exact slack.
- `verify` checks a code and activates in two statements; `EnrollOverlap` says exactly when the
  enrollment activated is the one checked.
- The quota is checked before the insert in a separate statement, so M + k - 1 aliases can be
  reached with k requests in flight; `ProfileQuota` proves that bound, that it is reached, and
  that it holds exactly when M + k - 1 fits in 32 bits.

## Model

| member | source | states |
|---|---|---|
| `Calendar.YearOfEraBrackets` | src/routes/profiles.rs:331-334 | the year-of-era division finds the year 0..399 whose first day is at or before the day of era, with the day at most 365 days in, and 365 only in a leap year |
| `Calendar.EraYearUnique` | src/routes/profiles.rs:332 | no other year of the era brackets that day |
| `Calendar.MarchMonthBrackets` | src/routes/profiles.rs:335-336 | the month index is 0..11 and its first day is the last month start at or before the day |
| `Calendar.FormulaDateValid` | src/routes/profiles.rs:329-340 | for every integer day number the formula gives a date of the Gregorian calendar |
| `Calendar.DayNumberOfFormula` | src/routes/profiles.rs:329-340 | a closed-form day number undoes the formula for every integer day |
| `Calendar.FormulaOfDayNumber` | src/routes/profiles.rs:329-340 | the formula undoes the closed-form day number for every valid date |
| `Calendar.DayNumberNext` | src/routes/profiles.rs:329-340 | the closed form grows by one from each date to the next under the Gregorian leap rule |
| `Calendar.FormulaIsNaive` | src/routes/profiles.rs:329-340 | for every day since 1970-01-01 the formula equals the calendar advanced one day at a time |
| `Calendar.NaiveDateSums` | src/routes/profiles.rs:320-322 | the day-by-day calendar's date sums, by whole years and months, to the number of days it was advanced |
| `Calendar.NaiveDateMonotone` | src/routes/profiles.rs:320-322 | later days have later dates |
| `Calendar.SecsToCivilIsNaive` | src/routes/profiles.rs:323-341 | for every u64 the six fields are the naive calendar's date and the time of day, valid, year at least 1970, and invert the summed-days definition |
| `IsoFormat.FormatCivilParses` | src/routes/profiles.rs:317 | the printed fields, whatever their size, are read back by a parser that sums year, month and day lengths |
| `IsoFormat.FormatIsoParses` | src/routes/profiles.rs:313-318 | the parser undoes the format for every i64, negative ones printing as the epoch |
| `IsoOrder.FormatIsoLength` | src/routes/profiles.rs:313-318 | the string has 20 characters exactly for instants before the year 10000, and never fewer |
| `IsoOrder.FormatIsoOrder` | src/routes/profiles.rs:313-318 | through the year 9999 lexicographic order of the strings is numeric order of the instants |
| `IsoOrder.OrderEndsAt10000` | src/routes/profiles.rs:313-318 | the last second of 9999 sorts after the first of 10000, so the bound is exact |
| `RateLimit.Limiter.constructor` | src/routes/mod.rs:22-25 | the limiter starts with no times and an empty history |
| `RateLimit.Limiter.Check` | src/routes/totp.rs:372-379 | prunes the list in place and admits exactly when the never-pruned history has fewer than five failures in [now-900, now] |
| `RateLimit.Limiter.Record` | src/routes/totp.rs:381-385 | appends the time to the list and the history and keeps the list lossless |
| `RateLimit.CheckRefines` | src/routes/totp.rs:372-379 | the answer is a count over the full history, and pruning removes nothing that any later check could count |
| `RateLimit.RetainSorted` | src/routes/totp.rs:377 | pruning keeps the stored list sorted and within the clock |
| `RateLimit.CheckPrunes` | src/routes/totp.rs:372-379 | a check leaves of the account's list exactly the times of the last 900 seconds, in order, and every other account's list as it is |
| `RateLimit.CheckedKeepsValid` | src/routes/totp.rs:372-379 | a check of one account keeps every account's list lossless |
| `RateLimit.RecordedKeepsValid` | src/routes/totp.rs:381-385 | a record for one account keeps every account's list lossless |
| `RateLimitRuns.CheckAnswersByHistory` | src/routes/totp.rs:372-385 | after any run of any interleaved requests a check answers as counting everything ever recorded for the account |
| `RateLimitRuns.WindowBound` | src/routes/totp.rs:217-229 | with at most k requests of the account past their check, every closed 900-second window of every run holds at most 4 + k recorded failures: five when requests run one at a time |
| `RateLimitRuns.WindowBoundReached` | src/routes/totp.rs:217-229 | for every k a run reaches 4 + k |
| `RateLimitRuns.OnlyOwnFailuresMatter` | src/routes/totp.rs:372-385 | leaving out other accounts' requests and the account's refused attempts changes no answer: refusals never extend a lockout |
| `Totp.OffsetInRange` | src/auth/totp.rs:34 | the truncation offset is the tag's last byte modulo 16, so four bytes from it lie inside the 20-byte tag |
| `Totp.TruncateIsPositional` | src/auth/totp.rs:35-38 | the shift/or/mask expression is the big-endian value of the four selected bytes modulo 2^31, for every tag |
| `Totp.CodeShape` | src/auth/totp.rs:39-41 | the printed code is six ASCII digits that read back as that value modulo 10^6, for every tag |
| `Totp.StepDecodes` | src/auth/totp.rs:31 | the big-endian value of the eight message bytes is the step, so different steps give different messages |
| `Totp.MessageIsStep` | src/auth/totp.rs:31 | the converse: eight bytes whose big-endian value is the step are that message |
| `Totp.StepCodeExact` | src/auth/totp.rs:29-42 | from the MAC alone: for the eight bytes whose big-endian value is the step there is no code exactly when the MAC fails, and else the code is the six digits of the 31-bit number at offset tag[19] mod 16, modulo 10^6 |
| `Totp.CodeExact` | src/auth/totp.rs:25-42 | the code of a clock value is so determined by the step now/30 |
| `Totp.Verify` | src/auth/totp.rs:47-61 | the prefilter, the drift loop and the clamp at step 0 together accept exactly the codes, as `StepCodeExact` determines them, of the non-negative steps within one of now/30 |
| `Totp.AcceptedAround` | src/auth/totp.rs:25-61 | a code produced at one time is accepted at every time within 30 seconds of it |
| `Totp.AcceptedIsRecent` | src/auth/totp.rs:47-61 | every accepted code is the code of a time less than 60 seconds away, at every clock value |
| `Totp.CodesLookLikeCodes` | src/routes/totp.rs:317-319 | every code the generator produces is routed to the TOTP check |
| `RecoveryCodes.GenerateCode` | src/auth/recovery_codes.rs:37-45 | the loop maps each random byte to its alphabet symbol; a failed random source gives no code |
| `RecoveryCodes.GenerateCodes` | src/auth/recovery_codes.rs:29-35 | ten codes, slot i from the i-th read, or none exactly when some read failed |
| `RecoveryCodes.SymbolsDistinct` | src/auth/recovery_codes.rs:14 | the 32 symbols of the alphabet are different |
| `RecoveryCodes.AlphabetIs` | src/auth/recovery_codes.rs:10-14 | the alphabet holds the ten digits and the capital letters without I, L, O and U, and nothing else |
| `RecoveryCodes.GeneratedSymbols` | src/auth/recovery_codes.rs:10-14 | no generated code contains I, L, O, U or anything but digits and capital letters |
| `RecoveryCodes.SymbolEightfold` | src/auth/recovery_codes.rs:42 | exactly eight bytes map to each symbol |
| `RecoveryCodes.GenerationUnbiased` | src/auth/recovery_codes.rs:37-45 | for every length n, each code over the alphabet has exactly 8^n byte strings that generate it |
| `RecoveryCodes.GeneratedShape` | src/routes/totp.rs:221-225 | every generated code is ten alphabet symbols and is never routed to the TOTP check |
| `ProfileTable.FindFrom` | migrations/0003_profiles.sql:12 | a lookup finds a row whose alias agrees up to ASCII case, or there is none |
| `ProfileTable.FindUnique` | migrations/0003_profiles.sql:12 | in a well-formed table it finds the one row with that alias, whatever its id |
| `ProfileTable.InsertKeeps` | src/routes/profiles.rs:89-98 | an insert fails exactly when the alias is taken up to case, and otherwise keeps aliases unique |
| `ProfileTable.PutLookupExact` | src/routes/profiles.rs:154-180 | the SELECT of a PUT answers not found, forbidden, conflict or the row to write, one version on, exactly by whether the alias has a row, whose it is and at which version |
| `ProfileAnswers.CreateAnswers` | src/routes/profiles.rs:61-117 | quota exceeded exactly if the account's rows modulo 2^32 reach the limit, alias taken exactly if they do not and some row has the alias, and else exactly one empty row under a new id |
| `ProfileAnswers.PutAnswers` | src/routes/profiles.rs:127-219 | whole: not found if no row has the alias; the row that has it refuses another account, then another version, and else takes body, size, next version and clock and nothing else changes |
| `ProfileAnswers.GetAnswers` | src/routes/profiles.rs:224-268 | whole: not found if no row has the alias; the row that has it is forbidden to another account, has no blob yet if it holds none or an empty one, and else gives its bytes; nothing changes |
| `ProfileAnswers.DeleteAnswers` | src/routes/profiles.rs:271-305 | whole: not found, forbidden, or the row with the alias and no other is removed |
| `ProfileTable.PutAloneKeeps` | src/routes/profiles.rs:149-209 | a PUT keeps ids, unique aliases, and size and version consistent with the blob |
| `ProfileStore.FoundIsNamed` | src/routes/profiles.rs:154-164 | an alias lookup in the table names exactly the book's one entry, or the alias is free |
| `ProfileStore.SelectionIsMine` | src/routes/profiles.rs:28-34 | the listing query returns the account's entries in order of creation |
| `ProfileStore.CountIsMine` | src/routes/profiles.rs:71-77 | COUNT(*) is the number of the account's entries |
| `ProfileStore.CreateKeeps` | src/routes/profiles.rs:87-98 | an insert appends one entry with an empty put history to the book |
| `ProfileStore.PutKeeps` | src/routes/profiles.rs:180-195 | an update appends one blob to the put history of one entry |
| `ProfileStore.RemoveKeeps` | src/routes/profiles.rs:296-300 | a delete removes exactly the named entry |
| `ProfileStore.Store.constructor` | src/routes/profiles.rs:61-116 | the store starts with an empty book |
| `ProfileStore.Store.Create` | src/routes/profiles.rs:61-116 | refused exactly at the quota or when the alias is taken up to case; otherwise the book gains one entry; the 32-bit cast of the count never loses value |
| `ProfileStore.Store.PutBlob` | src/routes/profiles.rs:127-219 | the error cases in the code's order; stores exactly when the caller owns the entry and its number of puts is the expected version, and then appends the body to that entry only |
| `ProfileStore.Store.GetBlob` | src/routes/profiles.rs:224-268 | answers the owner with the last put blob exactly when there is one and it is not empty |
| `ProfileStore.Store.Delete` | src/routes/profiles.rs:271-305 | removes the named entry exactly when the caller owns it, and changes nothing else |
| `ProfileStore.Store.List` | src/routes/profiles.rs:24-55 | the caller's entries in order of creation with last size, number of puts and times; a stored alias never fails to parse |
| `ProfileMachine.ReplayAppend` | src/routes/profiles.rs:149-209 | adding a statement with the result it has on the replayed table keeps the log a serial run |
| `ProfileMachine.RunInv` | src/routes/profiles.rs:149-209 | in every interleaved run the table is well formed and is the replay of the log, and open transactions are consistent with their snapshots |
| `ProfileRuns.SerialEquivalence` | src/routes/profiles.rs:149-209 | every interleaved run, with failures and aborts and however much requests overlap, ends in the table of the serial run of its statements and whole PUTs, with the same results, and every answer is what those results imply; what each statement answers on a table is what `ProfileAnswers` says |
| `ProfileSerial.FinishIsAlone` | src/routes/profiles.rs:61-305 | a step that finishes a request whose check still holds does to the committed table, and answers, what the whole request run alone would, which `ProfileAnswers` determines case by case |
| `ProfileSerial.OwnerSurvives` | src/routes/profiles.rs:283-303 | the ownership check of a delete survives the insert of a create of the account and its delete of another alias |
| `ProfileSerial.QuotaSurvives` | src/routes/profiles.rs:70-85 | the quota check of a create survives a delete of the account |
| `ProfileSerial.CompletionOrderIsSerial` | src/routes/profiles.rs:61-305 | if no two creates of one account, and no two deletes of one alias by one account, are between their two statements at once, the finished requests, replayed whole one at a time in the order of their answers, give the committed table and every answer |
| `ProfileOverlap.TwoCreatesNotSerial` | src/routes/profiles.rs:70-98 | with a limit of one, two creates that are both checked before either inserts are both answered created, which no order of whole requests gives |
| `ProfileOverlap.TwoDeletesNotSerial` | src/routes/profiles.rs:283-303 | two deletes of one alias that are both checked before either deletes are both answered deleted, which no order of whole requests gives |
| `ProfileOverlap.CreatesNotSerial` | src/routes/profiles.rs:70-98 | for every limit some run with two creates of an account at a time, and no delete, is no run of whole requests |
| `ProfileOverlap.DeletesNotSerial` | src/routes/profiles.rs:283-303 | for every limit some run with one create at a time and two deletes of one alias is none either |
| `ProfileOverlap.SeparateExactly` | src/routes/profiles.rs:61-305 | for every limit of at least one: all runs with at most c creates of an account and d deletes of any one of its aliases between their statements are runs of whole requests if and only if both are at most 1, or c is 0 |
| `ProfileOverlap.SerialExactly` | src/routes/profiles.rs:61-305 | for every limit of at least one: all runs with at most k requests of an account, of either kind, between their statements are runs of whole requests if and only if k is at most 1 |
| `ProfileOverlap.ZeroLimitSerial` | src/routes/profiles.rs:79-85 | with a limit of zero every run is a run of whole requests |
| `ProfileRuns.LogChain` | migrations/0003_profiles.sql:15-18 | the stored PUTs on each row id form one gapless chain 1, 2, ..., n |
| `ProfileRuns.LostUpdateFreedom` | src/routes/profiles.rs:147-209 | in every interleaved run: a gapless chain per row id, at most one success per expected version, each replaced exactly the blob of the one before (null for the first), and the row holds the last |
| `ProfileRuns.AcknowledgedPutIsInChain` | src/routes/profiles.rs:207-218 | every PUT a client was told is stored is a link of such a chain, with the version it was told |
| `ProfileAnswers.StoredPutFields` | src/routes/profiles.rs:147-219 | in every interleaved run a PUT told it is stored wrote its own account's row with that alias at the version it expected, that row alone, and was told the size of its body, the next version, the creation time the row had and the update time it then held |
| `ProfileAnswers.RowOrigin` | src/routes/profiles.rs:87-98 | every row has the owner, alias and creation time of one logged create |
| `ProfileAnswers.TimesAreOwnClocks` | src/routes/profiles.rs:87-218 | in every interleaved run the times a create and a stored PUT answer are clocks their own statements read |
| `ProfileAnswers.GetReadsOwnLastPut` | src/routes/profiles.rs:224-268 | in every interleaved run a finished GET is answered exactly by one point of the log: not found if and only if no row has the alias, forbidden if and only if it is another account's, bytes if and only if they are the body, not empty, of the last stored PUT on a row of its own |
| `ProfileProgress.PutFailsExactly` | src/routes/profiles.rs:149-209 | in every interleaved run a PUT that found its row and version and reaches its COMMIT fails if and only if some request committed since it looked, and else is stored |
| `ProfileProgress.UndisturbedIsAlone` | src/routes/profiles.rs:61-305 | at any point of any run a new request of any kind whose statements follow one another without a fault leaves and answers what it does whole on the committed table |
| `ProfileRuns.OwnershipIsolation` | src/routes/profiles.rs:155-193 | no step of a request changes or removes a row of another account, even when the alias was deleted and re-created meanwhile; owner, alias and creation time of a row never change |
| `ProfileRuns.AliasesUnique` | migrations/0003_profiles.sql:9-14 | in every interleaved run aliases are unique up to case |
| `ProfileQuota.QuotaBound` | src/routes/profiles.rs:70-98 | with limit M and at most k creates of the account in flight it never owns more than M + k - 1 aliases, when that fits in 32 bits |
| `ProfileQuota.QuotaBoundReached` | src/routes/profiles.rs:70-98 | for every M and k some run reaches M + k - 1 |
| `ProfileQuota.QuotaBoundPassed` | src/routes/profiles.rs:79 | beyond 32 bits the cast of the count wraps and a run passes the bound |
| `ProfileQuota.QuotaExact` | src/routes/profiles.rs:70-98 | the bound holds of all runs if and only if M + k - 1 fits in 32 bits; for requests one at a time it always holds |
| `ProfileQuota.ZeroLimit` | src/routes/profiles.rs:79-85 | a limit of zero admits nothing |
| `AuthTables.FindUser` | migrations/0001_users.sql:9 | an account lookup matches e-mail addresses up to ASCII case, or there is none |
| `AuthInvariants.PasswordOwnerExact` | src/routes/auth.rs:63-82 | the password check names an account exactly if the account has that address, up to case, and its hash verifies the password |
| `AuthAnswers.RegisterAnswers` | src/routes/auth.rs:29-57 | invalid, server error, conflict and created each in exactly its case: plausible address and at least 16 bytes of password, a hash, and no account with the lower-cased address up to case; created adds exactly that account and nothing else changes anything |
| `AuthAnswers.LoginAnswers` | src/routes/auth.rs:63-149 | unauthorized exactly if address and password name no account; the account they name gets a session for 604800 s, or a challenge for 300 s if its second factor is active |
| `AuthAnswers.EnrollAnswers` | src/routes/totp.rs:39-129 | unauthorized, conflict, server error and success each in exactly its case; success shows the ten codes drawn and stores their ten hashes in order and the sealed seed, pending |
| `AuthAnswers.VerifyAnswers` | src/routes/totp.rs:133-180 | the checks in their order, each with its answer: limiter, a pending enrollment, a seed that decrypts, a timely code; a wrong code records one failure, a timely one activates and changes nothing else |
| `AuthAnswers.Step2Answers` | src/routes/totp.rs:184-240 | the checks in their order, each with its answer and its exact tables: fields, a stored challenge, its expiry, the limiter, the factor, the token |
| `AuthAnswers.DisableAnswers` | src/routes/totp.rs:245-313 | the checks in their order, each with its answer; one that passes removes the secret, the recovery rows and the challenges of that account and of no other |
| `AuthAnswers.FactorHolds` | src/routes/totp.rs:221-225 | a factor is accepted exactly if it is six digits timely for the seed of an active account, or not six digits and verifies against an unconsumed recovery row of the account |
| `AuthTables.RecoveryTarget` | src/routes/totp.rs:345-358 | the row a code would consume is the unconsumed row of the account with the lowest id that it matches, and there is none only if it matches none |
| `AuthTables.Unconsumed` | src/routes/totp.rs:345-356 | the SELECT lists exactly the unconsumed rows of the account, by growing id |
| `AuthServer.Server.constructor` | src/routes/mod.rs:48-60 | the server starts with empty tables and no failures |
| `AuthServer.Server.Enroll` | src/routes/totp.rs:39-129 | the handler, with its eleven inserts, does exactly what `EnrollStep` specifies; `AuthAnswers.EnrollAnswers` says what that is |
| `AuthServer.Server.InsertEnrollment` | src/routes/totp.rs:80-119 | one secret row and ten recovery rows together, or, if any hash fails, nothing |
| `AuthServer.Server.Verify` | src/routes/totp.rs:133-180 | the handler does exactly what `VerifyStep` specifies: the limiter first, only a pending enrollment, one recorded failure for a wrong code and none otherwise, activation for a code that fits the seed |
| `AuthServer.Server.VerifyTotpForUser` | src/routes/totp.rs:321-339 | accepts exactly for an active account whose seed decrypts and fits the code |
| `AuthServer.Server.ConsumeRecoveryCode` | src/routes/totp.rs:344-370 | the loop marks exactly the row `RecoveryTarget` names, the first unconsumed one that matches, or changes nothing if none does |
| `AuthServer.Server.SecondFactor` | src/routes/totp.rs:221-225 | six digits go to the TOTP check, anything else to the recovery codes; `AuthAnswers.FactorHolds` says when it is accepted |
| `AuthServer.Server.LoginStep2` | src/routes/totp.rs:184-240 | the handler does exactly what `Step2Step` specifies; `AuthAnswers.Step2Answers` says what that is |
| `AuthServer.Server.Disable` | src/routes/totp.rs:245-313 | the handler does exactly what `DisableStep` specifies; `AuthAnswers.DisableAnswers` says what that is |
| `AuthEffects.ExecHasEffect` | src/routes/totp.rs:184-313 | every request changes the tables by exactly one of eight effects and its answer tells which |
| `AuthEffects.FactorIgnoresFailures` | src/routes/totp.rs:221-225 | whether a second factor is accepted and which row it names do not depend on the failure times |
| `AuthInvariants.EffectEnabled` | src/routes/auth.rs:84-114 | each effect happens only under its conditions: password, status, an admission by the limiter together with an accepted code, unexpired challenge |
| `AuthInvariants.InvKept` | src/routes/totp.rs:280-309 | every request keeps: recovery rows belong to enrolled accounts, challenges to active ones, addresses unique up to case, ids below their counters |
| `AuthInvariants.UsersAfter` | src/routes/auth.rs:29-57 | no request changes an account, and only a registration with a free address and a long enough password adds one (`AuthAnswers.RegisterAnswers` says when it does) |
| `AuthInvariants.StatusMoves` | src/routes/totp.rs:145-171 | status moves only Off to Pending by an answered enrollment, Pending to Active by a fitting code, and to Off by a disable that passed password and second factor |
| `AuthRuns.EnrollmentOrigin` | src/routes/totp.rs:80-119 | in every run an enrolled account has the seed and the ten recovery rows of one earlier enrollment, in place ever since |
| `AuthRuns.EnrollmentShape` | migrations/0004_totp.sql:12-19 | in every run an account has exactly ten recovery rows if it has a secret row and none otherwise |
| `AuthRuns.ActivationOrigin` | src/routes/totp.rs:164-171 | an active account was activated by one earlier request and has been active since |
| `AuthRuns.ActiveSeedVerified` | src/routes/totp.rs:145-171 | the current seed of an active account had a code of a step within one of the clock accepted after it was enrolled, both by its own sessions |
| `LoginRuns.ChallengeOrigin` | src/routes/auth.rs:101-114 | every stored challenge was minted by a correct-password login of its active account, within its current enrollment |
| `LoginRuns.ChallengeGone` | src/routes/totp.rs:232-237 | a challenge that is gone never comes back |
| `LoginRuns.LoginCorrespondence` | src/routes/totp.rs:184-240 | every session is either a correct-password login of an account that was not active, or redeems a challenge of a correct-password login less than 300 s earlier in the same enrollment, with a second factor accepted in that request |
| `LoginRuns.OneSessionPerChallenge` | src/routes/totp.rs:232-237 | no two requests redeem the challenge of the same login: the match is injective |
| `LoginRuns.SpentForever` | src/routes/totp.rs:359-365 | once consumed or deleted a recovery row stays so, with its consumption time |
| `LoginRuns.RowUsedFacts` | src/routes/totp.rs:344-370 | a consumed row was the account's own, unconsumed until then, and matched the presented code |
| `LoginRuns.RecoveryRowsUsedOnce` | src/routes/totp.rs:344-370 | no recovery row is consumed by two requests of a run |
| `LoginRuns.UseBelongs` | src/routes/totp.rs:345-358 | every consumption belongs to the enrollment the account has at that moment |
| `LoginRuns.TenCodesPerEnrollment` | src/routes/totp.rs:221-274 | one enrollment admits at most ten recovery-code successes, logins and disables together |
| `SessionRuns.SessionOrigin` | src/routes/auth.rs:126-149 | every session row was minted by an earlier request that answered its token |
| `SessionRuns.SessionValidity` | src/routes/auth.rs:183-229 | a token resolves to an account exactly when some request answered it to that account less than 604800 s ago |
| `SessionRuns.RejectedForever` | src/routes/auth.rs:183-229 | an issued token once rejected is rejected in every later state at every later time |
| `LimiterRuns.ExecReflects` | src/routes/totp.rs:141-162 | every request uses the limiter in one of four ways, leaves the list that way leaves, and is answered `RateLimited` exactly when it was refused |
| `LimiterRuns.RunDrivesLimiter` | src/routes/totp.rs:372-385 | every run of account requests with a clock that does not go back drives the limiter as a run of its own checks and records with at most one request past its check, and its full history is the failures recorded |
| `LimiterRuns.FiveFailuresPerWindow` | src/routes/totp.rs:217-229 | in every such run every closed 900-second window holds at most five recorded failures of an account |
| `LimiterRuns.NoSuccessWhileLocked` | src/routes/totp.rs:141-171 | no second factor, activation or disable succeeds while five failures lie in the 900 seconds up to it |
| `LimiterRuns.LimitedExactly` | src/routes/totp.rs:372-393 | a request is answered `RateLimited` exactly when it reaches the limiter for an account with five failures in the 900 seconds up to it |
| `FactorRuns.RegisteredLogsIn` | src/routes/auth.rs:29-124 | in every run a login is refused exactly if no earlier registration was answered created with that address, up to case, and a hash the password verifies against; its holder gets a session, or a challenge if the second factor is active |
| `FactorRuns.ChallengeIsLive` | src/routes/totp.rs:195-215 | in every run with fresh tokens a challenge answered to a correct password is live for 300 s until it is redeemed or the second factor is turned off, whatever else happens |
| `FactorRuns.FactorDecidesLogin` | src/routes/totp.rs:184-240 | with a live challenge, fewer than five recent failures and a token, the second step answers a session if and only if the factor holds, and consumes exactly the lowest row a recovery code opens |
| `FactorRuns.TotpLogsIn` | src/routes/totp.rs:184-240 | six digits then give a session if and only if they are the code of a step within one of now/30, and consume no recovery row |
| `FactorRuns.TwoStepLogin` | src/routes/totp.rs:184-240 | end to end: within 300 s of a correct password, with its challenge unspent, exactly the timely codes give a session |
| `FactorRuns.FactorDecidesDisable` | src/routes/totp.rs:245-313 | with a session, the password and fewer than five recent failures, a disable succeeds, and turns the second factor off, if and only if the factor holds |
| `FactorRuns.TotpDisables` | src/routes/totp.rs:245-313 | six digits then disable if and only if the account is active and they are the code of a step within one of now/30 |
| `FactorRuns.TotpActivates` | src/routes/totp.rs:133-180 | with a session, a pending enrollment and fewer than five recent failures, a code activates if and only if it is the code of a step within one of now/30 |
| `RecoveryRuns.RowKeepsHash` | migrations/0004_totp.sql:24-30 | between any two points of a run a recovery row keeps its account and its hash |
| `RecoveryRuns.CodesShown` | src/routes/totp.rs:80-127 | in every run an enrollment that succeeds answers the codes drawn and stores, in order, one new unconsumed row of the caller with the hash of each |
| `RecoveryRuns.UnconsumedIffUnused` | src/routes/totp.rs:344-370 | until the caller disables, row i of an enrollment is there with hash i, and is unconsumed if and only if no request since has consumed it |
| `RecoveryRuns.IssuedCodeAccepted` | src/routes/totp.rs:104-129 | each of the ten codes an enrollment answered, if what was drawn verifies against the hash stored with it, opens its own row exactly until a request uses that row, and so is accepted, active or pending, until the caller disables |
| `RecoveryRuns.IssuedCodeLogsIn` | src/routes/totp.rs:184-240 | with such an answered code, a live challenge and fewer than five recent failures the second login step answers a session, and marks that code's row and no other if it opens no other |
| `RecoveryRuns.IssuedCodeDisables` | src/routes/totp.rs:245-313 | such an answered code, with the session, the password and fewer than five recent failures, turns the second factor off |
| `EnrollMachine.ShapeInEveryRun` | src/routes/totp.rs:80-119 | interleaved, with failing statements and aborted transactions: ten recovery rows for an account with a secret row, none otherwise |
| `EnrollMachine.SuccessMeans` | src/routes/totp.rs:80-119 | an enrollment that succeeds leaves its seed pending and ten unconsumed rows; an activation leaves no pending secret; a disable leaves no secret, row or challenge of the account |
| `EnrollMachine.ForeignRowsUntouched` | src/routes/totp.rs:281-311 | a step taken for one account leaves the secret, the recovery rows and the challenges of every other as they are |
| `EnrollMachine.RowsKeepInRuns` | migrations/0004_totp.sql:24-30 | interleaved: row ids are not used again, rows keep their account, and consumed rows never become usable |
| `EnrollMachine.SpentRowsPassNoCheck` | src/routes/totp.rs:345-366 | interleaved: a row found consumed or gone passes no check later in the run |
| `EnrollAtomic.UndisturbedIsAlone` | src/routes/totp.rs:39-313 | from any state, whatever other requests are under way, a new request of any kind whose statements follow one another without a fault does one whole thing |
| `EnrollAtomic.FaultEnds` | src/routes/totp.rs:80-119 | a statement that fails changes no table, and ends its request in an error unless it marks a recovery row or deletes a challenge |
| `EnrollAtomic.FailedWritesIgnored` | src/routes/totp.rs:232-237 | a sign-in whose UPDATE of the recovery row and DELETE of the challenge both fail still gets its session and leaves both to be used again |
| `EnrollSequential.HandlerIsUndisturbed` | src/routes/totp.rs:39-313 | an undisturbed request of the machine leaves the tables that its handler, run alone on the account tables, leaves, and succeeds exactly if the handler does |
| `EnrollSequential.SequentialIsARun` | src/routes/totp.rs:39-313 | every sequential run of the account handlers is a run of the machine |
| `EnrollOverlap.SameRowsIffStands` | src/routes/totp.rs:80-119 | an account has the same recovery rows at two points of an interleaved run exactly if it had a secret row all the time between |
| `EnrollOverlap.ActivatesTheChecked` | src/routes/totp.rs:145-171 | the UPDATE of an activation activates the enrollment whose seed was checked if and only if the account has had a secret row ever since the check |
| `EnrollExtremes.ActivationReachesLater` | src/routes/totp.rs:145-171 | otherwise it need not, even when no statement that marks a row or drops a challenge fails: a disable and a new enrollment between check and UPDATE make an unchecked seed active |
| `EnrollOverlap.RowSlack` | src/routes/totp.rs:345-366 | with at most k requests at a time that have matched a recovery row and not yet marked it, the row lets in, in any interleaved run, at most k requests and one more for each of its UPDATEs that failed |
| `EnrollExtremes.RowSlackReached` | src/routes/totp.rs:345-366 | for every k of at least one and every f some run with f failed UPDATEs lets in k + f requests by one row, and all of them succeed: with k = 1 and one failure, two |
| `EnrollOverlap.ChallengeSlack` | src/routes/totp.rs:195-237 | with at most k requests at a time that have read a challenge and not yet deleted it, the challenge gives, in any interleaved run, at most k sessions and one more for each of its DELETEs that failed |
| `EnrollExtremes.ChallengeSlackReached` | src/routes/totp.rs:195-240 | for every k some run without a failed DELETE gives k sessions for one challenge |

## Left out

- The limiter is not in the interleaved enrollment machine; its own overlap is `RateLimitRuns`.
- Six-digit codes are not remembered by the code, so nothing says they are used once.
- A request that reads the clock on both sides of an expiry, a window edge or a 30-second step.
- Statement failures in the account handlers, beyond failing random sources and hashers, appear only
  in `EnrollMachine`; in the profile handlers only in `ProfileMachine`.
- `list` is modelled alone, not in the interleaved machine: it is one read statement.
- `blob_version` and ids are unbounded; overflow of SQLite's 64-bit integers is not modelled.
- Argon2id, HMAC-SHA1, SHA-256, XChaCha20-Poly1305, base32 and base64, and the random source are
  parameters.
- `Alias::new` and `is_plausible_email` come from a crate that is not part of this model.
- Header extraction, the `Bearer ` prefix and its trimming, JSON, status codes and messages.
- E-mail preferences, `/info`, the otpauth URI, configuration, start-up and shutdown: no state or
  arithmetic worth a proof.
- Running time: constant-time comparison and hashing cost.
