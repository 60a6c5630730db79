# testgenius backend core, modelled in Dafny

testgenius is a NestJS backend for building tests and running them live. An
owner opens an *online test* session with a six-digit join code.
Participants join it over a websocket, give their names and pick answers,
and a scorer keeps per-participant counters. Around that sit:

- e-mail verification codes;
- the bearer-token guards;
- a midnight coin grant;
- coin packs and their pricing rules;
- Stripe crediting of purchased packs;
- per-user notifications;
- the dashboard's analytics arithmetic;
- the owner checks on stored tests.

This project models that core as pure functions over immutable values:

- Each database table is a sequence of records.
- Each service call is a function from the old table to a result and the new table.
- Errors are values (`Wrappers.Result`, `HttpError`).

Whatever lies outside the core appears as a parameter, for example the
current instant, the random draw, the token verifier, `JSON.parse` and the
generated ids.

Modules follow the program's structure:

| module | models |
|---|---|
| `OnlineTests` | the online-test repository: sessions and their rosters |
| `OnlineTestGateway` | the socket handlers of the online-test gateway |
| `AnswerValidation` | the answer scorer and its counters; `Nested` is the three-level results map it writes |
| `TempCodes` | join codes: repository and service |
| `Verification` | e-mail verification codes |
| `DailyCoins` | the scheduled and the manual coin grant |
| `Billing` | Stripe payment intents, confirmation, webhook, history |
| `Packs` | pack validation, name uniqueness, pricing helpers |
| `Analytics` | periods, percentage changes, completion rate, average score |
| `Notifications` | notification repository and service |
| `Guards` | `JwtAuthGuard` and `AdminGuard` |
| `TestService` | ownership checks, paging, download, update, delete of tests |

The shared helpers are:

- `Paging`: skip/take windows and `Math.ceil` page counts;
- `Text`: `trim` over ECMAScript white space, ASCII `toLowerCase`, and decimal strings;
- `Collections`: `find`, `filter`, counting and reversal. Its lemmas (`FilterAppend`, `FilterLength`, `FilterKeepsPairwise`, `CountAppend`, `ReverseAppend`, `FirstIndexOfUnique`) and the per-module helper lemmas (`OnlineTests.ReplaceKeeps*`, `OnlineTests.FilterAllKept`, `Text.TrimIsInfix` and others) support the rows below and have no row of their own;
- `Wrappers`: the result types.

## Model

| member | source | states |
|---|---|---|
| OnlineTests.IndexByTestId | src/modules/online-test/online-test.repository.ts:39-44 | the first session of a test: absent exactly when no session has that test id, and no earlier session has it |
| OnlineTests.ByTestId | src/modules/online-test/online-test.repository.ts:39-44 | the session found is a stored session of that test; none exactly when no session has the test id |
| OnlineTests.IndexById | src/modules/online-test/online-test.repository.ts:47-53 | the position of the session with that id, none exactly when no session has it |
| OnlineTests.Create | src/modules/online-test/online-test.repository.ts:18-30 | a new session is appended with an empty roster and no timestamps or results; a clashing id or test id fails with a unique violation and stores nothing |
| OnlineTests.Start | src/modules/online-test/online-test.repository.ts:46-72 | an unknown id is 'Online test not found'; no named participant is 'No valid participants found'; otherwise the roster is exactly the participants with both names, in their original order, `startedAt` is stamped, and only that session changes |
| OnlineTests.Finish | src/modules/online-test/online-test.repository.ts:74-80 | `finishedAt` is stamped and roster, results and start stay; an unknown id fails as the update does |
| OnlineTests.Add | src/modules/online-test/online-test.repository.ts:96-112 | the participant is appended to the roster of the test's session, duplicates included; an unknown test is 'Online test not found' |
| OnlineTests.UpdateParticipant | src/modules/online-test/online-test.repository.ts:114-136 | every entry with the client id takes the new names and e-mail and keeps its status; other entries and the roster length are unchanged |
| OnlineTests.SpliceLast | src/modules/online-test/online-test.repository.ts:149 | `splice(indexOf(p), 1)` with a reference `indexOf` that finds nothing drops the last entry, and nothing from an empty roster |
| OnlineTests.Remove | src/modules/online-test/online-test.repository.ts:138-154 | whoever is named, the roster loses its last entry and keeps the rest in order; an unknown id is 'Online test not found' |
| OnlineTests.UpdateResults | src/gateways/online-test/online-test.gateway.ts:295-298 | the write the answer handler calls for: the session's results become the given map and nothing else changes |
| OnlineTests.AddThenRemove | src/modules/online-test/online-test.repository.ts:96-154 | adding and then removing anyone restores both the session and the whole store |
| OnlineTests.StartTwice | src/modules/online-test/online-test.repository.ts:55-72 | starting a started session succeeds again with the same roster and only moves `startedAt` |
| OnlineTests.FinishTwice | src/modules/online-test/online-test.repository.ts:74-80 | finishing again keeps everything but the newer `finishedAt` |
| OnlineTests.UpdateParticipantIdempotent | src/modules/online-test/online-test.repository.ts:114-136 | sending the same contact data a second time leaves the store and the session as the first time did |
| OnlineTests.OperationsKeepUnique | src/modules/online-test/online-test.repository.ts:46-154 | start, finish, add, update and remove keep ids and test ids unique across sessions |
| OnlineTests.CreateKeepsUnique | src/modules/online-test/online-test.repository.ts:18-30 | a successful create keeps ids and test ids unique |
| OnlineTests.FoundById | src/modules/online-test/online-test.repository.ts:39-53 | with unique ids, the session found by test id is the one found by its own id |
| OnlineTestGateway.StartTest | src/gateways/online-test/online-test.gateway.ts:51-74 | an invalid token changes nothing; a test that is not the caller's creates nothing; for the owner the join-code service runs, and when it yields a code the session create runs: a created session is appended and the outcome is TestStarted with that code, while a failure at either step is logged and leaves the sessions; tests are never touched |
| OnlineTestGateway.StartFreshTest | src/gateways/online-test/online-test.gateway.ts:51-74 | the owner of a test with no join code and no session, given fresh ids, gets the new code and an empty, unstarted session appended, and nothing else changes |
| OnlineTestGateway.StartOnlineTest | src/gateways/online-test/online-test.gateway.ts:76-107 | an unknown code changes nothing; the session starts only when it exists, is unfinished and belongs to the caller, and its start is not checked |
| OnlineTestGateway.FinishOnlineTest | src/gateways/online-test/online-test.gateway.ts:109-122 | any valid token finishes the test's session; the results broadcast are those before finishing; every other session is unchanged; no session means nothing happens |
| OnlineTestGateway.JoinOnlineTest | src/gateways/online-test/online-test.gateway.ts:124-169 | a socket without a verified user is appended as pending even if already present; a verified user is not added; an unknown code changes nothing |
| OnlineTestGateway.LeaveOnlineTest | src/gateways/online-test/online-test.gateway.ts:171-190 | a leave drops the last roster entry of the code's session, whoever sent it |
| OnlineTestGateway.FindParticipant | src/gateways/online-test/online-test.gateway.ts:271 | the entry found is in the roster with this client id; none exactly when no entry has it |
| OnlineTestGateway.ChangeUserData | src/gateways/online-test/online-test.gateway.ts:192-234 | missing names or a zero code are ignored; otherwise the repository copies names and e-mail onto the client's entries, and the stored status stays; the number of sessions and every session of another test are unchanged |
| OnlineTestGateway.SelectAnswerGuard | src/gateways/online-test/online-test.gateway.ts:252-276 | 'Test not found', 'Test is not active' and 'Participant not found' in that order; none when the session is active and the client is on its roster |
| OnlineTestGateway.SelectAnswer | src/gateways/online-test/online-test.gateway.ts:236-314 | as written: the backend never changes and the caller always gets an error, either the guard's or 'Failed to process answer selection' |
| OnlineTestGateway.SelectAnswerNeverStores | src/gateways/online-test/online-test.gateway.ts:295-313 | a selection that passes every guard is still rejected and stores nothing |
| OnlineTestGateway.WriteAnswer | src/gateways/online-test/online-test.gateway.ts:279-292 | `results[client][section][task][question] = answer` creates the missing levels, and every other client and answer keeps its value |
| OnlineTestGateway.SelectAnswerCorrected | src/gateways/online-test/online-test.gateway.ts:279-306 | intended behaviour: after the guards the session's results hold the new answer and nothing else in the backend changes |
| OnlineTestGateway.InvalidTokenChangesNothing | src/gateways/online-test/online-test.gateway.ts:315-324 | an invalid token leaves the backend as it was in every handler that needs one |
| OnlineTestGateway.FinishByNonOwner | src/gateways/online-test/online-test.gateway.ts:109-122 | a user who is not the owner can finish the session |
| OnlineTestGateway.JoinTwiceDuplicates | src/gateways/online-test/online-test.gateway.ts:139-150 | two anonymous joins from one socket put it on the roster twice |
| OnlineTestGateway.JoinThenLeave | src/gateways/online-test/online-test.gateway.ts:124-190 | an anonymous join followed by any socket's leave restores the roster |
| OnlineTestGateway.RestartMovesStart | src/gateways/online-test/online-test.gateway.ts:76-107 | the owner can start a running session again, moving its start |
| AnswerValidation.FindQuestion | src/modules/online-test/services/answer-validation.service.ts:8-17 | a question found has the id and lies in the named section and task; an unknown section finds nothing |
| AnswerValidation.FindQuestionComplete | src/modules/online-test/services/answer-validation.service.ts:8-17 | with unique sibling ids, every question in the tree is found under its own section and task |
| AnswerValidation.AnyMatches | src/modules/online-test/services/answer-validation.service.ts:26-28 | true exactly when some candidate normalises to the key |
| AnswerValidation.ValidateAnswer | src/modules/online-test/services/answer-validation.service.ts:19-39 | correct exactly when some `answers` entry matches after trim and lower-casing; `acceptableAnswers` counts only when `answers` is empty |
| AnswerValidation.EmptyKeyRejects | src/modules/online-test/services/answer-validation.service.ts:38 | with neither list nothing is correct |
| AnswerValidation.AnswersShadowAcceptable | src/modules/online-test/services/answer-validation.service.ts:25-36 | when `answers` is non-empty, `acceptableAnswers` has no effect |
| AnswerValidation.SingleAnswer | src/modules/online-test/services/answer-validation.service.ts:22-29 | with one answer, a submission is correct exactly when both normalise alike |
| AnswerValidation.ParisExample | src/modules/online-test/services/answer-validation.service.ts:22-29 | case and padding are ignored ('paris', '  Paris ', 'PARIS' accepted) and a different word ('parise') is not |
| AnswerValidation.CalculatePercentage | src/modules/online-test/services/answer-validation.service.ts:41-44 | 0 with no questions, otherwise the ratio times 100; within [0, 100] when correct is within [0, total] |
| AnswerValidation.ProcessAnswer | src/modules/online-test/services/answer-validation.service.ts:46-128 | an unknown question fails with 'Question not found'; otherwise the result is exactly `Record` of the submission with the found question's verdict, so the entry, counters, trend and time move as `Record` states |
| AnswerValidation.Record | src/modules/online-test/services/answer-validation.service.ts:61-125 | one submission: the answer, verdict, time and time spent are written at the question's key and every other key keeps its entry; `totalQuestions` grows by one, the correct or the incorrect counter by one; the trend lists gain the question and its verdict; total time grows by the time spent; average time and accuracy are total time and correct count over the new total |
| AnswerValidation.ProcessAnswerKeepsCounters | src/modules/online-test/services/answer-validation.service.ts:103-122 | correct plus incorrect equals the total, the trend lists stay parallel, and accuracy stays within [0, 100] |
| AnswerValidation.RecordKeepsCounters | src/modules/online-test/services/answer-validation.service.ts:82-125 | one recording keeps the counters consistent and accuracy within [0, 100] |
| AnswerValidation.RecordFirstAnswer | src/modules/online-test/services/answer-validation.service.ts:82-109 | a first answer to a question adds one entry and keeps the counters equal to the trace's entries |
| AnswerValidation.RecordAgainKeepsEntries | src/modules/online-test/services/answer-validation.service.ts:82-87 | answering an answered question overwrites its entry; the set of entries does not grow |
| AnswerValidation.ResubmissionInflatesTotal | src/modules/online-test/services/answer-validation.service.ts:109 | as written: after a second submission to one question, `totalQuestions` exceeds the number of answered questions |
| AnswerValidation.RecordOnce | src/modules/online-test/services/answer-validation.service.ts:82-125 | intended counting: the entry is written, all other entries stay, and the total grows only for a new question |
| AnswerValidation.ProcessAnswerOnce | src/modules/online-test/services/answer-validation.service.ts:46-128 | the scorer with intended counting: same errors as the original, and on success exactly `RecordOnce` of the submission with the found question's verdict |
| AnswerValidation.RecordOnceCountsMatchTrace | src/modules/online-test/services/answer-validation.service.ts:103-109 | with intended counting, totals and correct counts equal the trace's entries and correct entries |
| AnswerValidation.ProcessAnswerOnceCountsMatchTrace | src/modules/online-test/services/answer-validation.service.ts:103-109 | the corrected scorer keeps the counters describing the trace for any sequence of submissions |
| AnswerValidation.PutSizes | src/modules/online-test/services/answer-validation.service.ts:82-87 | writing one entry adds one entry exactly when the key is new, and changes the correct entries by the verdicts |
| Nested.Put | src/modules/online-test/services/answer-validation.service.ts:60-87 | the written key reads back the value; every other key reads as before |
| Nested.EntriesMeansGet | src/modules/online-test/services/answer-validation.service.ts:60-87 | a key is an entry exactly when a lookup of it succeeds |
| Nested.PutEntries | src/modules/online-test/services/answer-validation.service.ts:60-87 | writing adds exactly the written key to the entries |
| TempCodes.GenerateCode | src/modules/test-temp-code/test-temp-code.repository.ts:58-60 | `floor(100000 + rand * 900000)` is a six-digit code |
| TempCodes.GenerateCodeCovers | src/modules/test-temp-code/test-temp-code.repository.ts:58-60 | every six-digit code is drawn by some random value |
| TempCodes.ByCode | src/modules/test-temp-code/test-temp-code.repository.ts:41-48 | the code found is stored with that code; none exactly when no code matches |
| TempCodes.ByTestId | src/modules/test-temp-code/test-temp-code.repository.ts:50-56 | the code found is stored for that test; none exactly when no code matches |
| TempCodes.Create | src/modules/test-temp-code/test-temp-code.repository.ts:23-31 | a new six-digit code is appended for the test; a clash on code or test id fails and stores nothing |
| TempCodes.DeleteByCode | src/modules/test-temp-code/test-temp-code.repository.ts:33-39 | the store loses exactly the records with that code; a missing record fails |
| TempCodes.CreateTestTempCode | src/modules/test-temp-code/test-temp-code.service.ts:11-25 | a live code is returned as is; an expired one is deleted and 'Test temp code expired' is raised; with no code for the test a new one is appended and returned exactly when its id and drawn code are free, else the unique violation stores nothing; a code expiring exactly now takes the create path and clashes |
| TempCodes.CreatedCodeIsReused | src/modules/test-temp-code/test-temp-code.service.ts:11-25 | a code just created is handed back unchanged by every later call for the test before it expires |
| TempCodes.GetTestTempCode | src/modules/test-temp-code/test-temp-code.service.ts:32-38 | succeeds exactly when the code is stored; otherwise 'Invalid test temp code' |
| TempCodes.GetTestTempCodeByTestId | src/modules/test-temp-code/test-temp-code.service.ts:40-42 | found exactly when some code belongs to the test |
| TempCodes.ByCodeUnique | src/modules/test-temp-code/test-temp-code.repository.ts:41-48 | with unique codes, each stored record is what its code finds |
| TempCodes.ByTestIdUnique | src/modules/test-temp-code/test-temp-code.repository.ts:50-56 | with unique test ids, each stored record is what its test id finds |
| TempCodes.CreateThenLookup | src/modules/test-temp-code/test-temp-code.repository.ts:23-56 | a created code is found again by its code and by its test |
| TempCodes.DeleteThenLookup | src/modules/test-temp-code/test-temp-code.repository.ts:33-48 | after deleting a code, uniqueness holds and the code is invalid |
| TempCodes.CreateTestTempCodeKeepsUnique | src/modules/test-temp-code/test-temp-code.service.ts:11-25 | the service call keeps codes and test ids unique |
| TempCodes.ExpiryBoundaryClashes | src/modules/test-temp-code/test-temp-code.service.ts:15-24 | a code expiring exactly now is neither live nor expired, so the create path clashes on the test id |
| Verification.GenerateCode | src/modules/auth/verification.service.ts:66 | the code is six decimal digits whose value lies in [100000, 999999] |
| Verification.ByEmail | src/modules/auth/verification.service.ts:37-41 | the record found has the e-mail; none exactly when no record has it |
| Verification.ByTokenAndCode | src/modules/auth/verification.service.ts:101-106 | the record found has both token and code; none exactly when no record has both |
| Verification.WithoutEmail | src/modules/auth/verification.service.ts:30-36 | exactly the records of other e-mails remain |
| Verification.WithoutCode | src/modules/auth/verification.service.ts:112-117 | exactly the records with other codes remain |
| Verification.Fresh | src/modules/auth/verification.service.ts:66-83 | the new record carries the applicant's e-mail and names, an empty last name when none is given, no password on restore, and expiry 15 minutes after now |
| Verification.Insert | src/modules/auth/verification.service.ts:73-83 | a clash on token or code fails and stores nothing; otherwise the record is appended |
| Verification.CreateCode | src/modules/auth/verification.service.ts:26-96 | on restore the e-mail's records go first; a live record is returned again; otherwise stale records are dropped and a fresh one is inserted |
| Verification.VerifyCode | src/modules/auth/verification.service.ts:98-122 | no match is 'Invalid verification code'; an expired record is deleted and 'Verification code expired' raised; otherwise the record is returned and kept |
| Verification.WithoutEmailKeepsUnique | src/modules/auth/verification.service.ts:30-64 | deleting by e-mail keeps e-mails, tokens and codes unique |
| Verification.InsertKeepsUnique | src/modules/auth/verification.service.ts:73-83 | inserting for an absent e-mail keeps uniqueness |
| Verification.CreateCodeKeepsUnique | src/modules/auth/verification.service.ts:26-96 | issuing a code keeps e-mails, tokens and codes unique |
| Verification.ByTokenAndCodeFinds | src/modules/auth/verification.service.ts:101-106 | with unique records, each is what its token and code find |
| Verification.IssueThenVerify | src/modules/auth/verification.service.ts:26-122 | a code just issued verifies until it expires, and returns the issued record |
| Verification.RestoreIssuesFresh | src/modules/auth/verification.service.ts:30-36 | a restore never returns an old record: the result has the new token, no password and a full 15-minute lifetime |
| Verification.ExpiredThenInvalid | src/modules/auth/verification.service.ts:112-118 | an expired code is reported expired once, then invalid |
| DailyCoins.Granted | src/modules/scheduler/services/daily-coins.service.ts:48-57 | an eligible user gains exactly the amount and stays within the cap of 20; anyone else is unchanged |
| DailyCoins.EligibleIdsAppend | src/modules/scheduler/services/daily-coins.service.ts:46-66 | the notified ids of two lists are the notified ids of each, in order |
| DailyCoins.DistributeDailyCoins | src/modules/scheduler/services/daily-coins.service.ts:19-73 | every user gets the grant rule; the count and the notified ids are exactly the eligible users; no verified users changes nothing |
| DailyCoins.TriggerDailyCoins | src/modules/scheduler/services/daily-coins.service.ts:76-139 | the same grant rule, but the count is every verified user; a query failure gives an unsuccessful result with count 0 and no change |
| DailyCoins.EligibleAtMostVerified | src/modules/scheduler/services/daily-coins.service.ts:60-116 | the scheduled count never exceeds the manual count |
| DailyCoins.CountsAgreeIffAllCredited | src/modules/scheduler/services/daily-coins.service.ts:48-116 | the two counts agree exactly when every verified user stays within the cap |
| DailyCoins.GrantKeepsCap | src/modules/scheduler/services/daily-coins.service.ts:48 | a grant never lowers a balance and never lifts one within the cap above it |
| Billing.FindPack | src/modules/stripe/stripe.service.ts:44-50 | the pack found has the id; none exactly when no pack has it |
| Billing.CreatePaymentIntent | src/modules/stripe/stripe.service.ts:39-107 | an unknown pack is 'Pack not found' and a free pack is refused; otherwise the intent charges the pack's price with the buyer and pack in its metadata |
| Billing.Credit | src/modules/stripe/stripe.service.ts:156-176 | one COMPLETED record is appended and only the buyer's balance rises, by the pack's coins; a missing user rolls back |
| Billing.ConfirmPayment | src/modules/stripe/stripe.service.ts:112-234 | a missing, foreign, unsuccessful or processed intent, a missing pack id or a missing pack fails with its own error and leaves the ledger; a succeeded, unprocessed intent of the caller for an existing pack credits an existing caller, and a missing caller rolls back |
| Billing.OnSucceeded | src/modules/stripe/stripe.service.ts:271-344 | missing metadata, a processed intent, a missing pack or a failed credit leave the ledger; truthy metadata on an unprocessed intent for an existing pack and user credits that user exactly once, and any change is that credit |
| Billing.HandleWebhook | src/modules/stripe/stripe.service.ts:239-266 | a missing secret or bad signature is a BadRequest; a succeeded event credits, any other event changes nothing |
| Billing.CreditKeepsAtMostOnce | src/modules/stripe/stripe.service.ts:156-176 | crediting an unprocessed intent keeps every intent completed at most once, and marks it processed |
| Billing.ConfirmKeepsAtMostOnce | src/modules/stripe/stripe.service.ts:133-176 | confirmation keeps every intent completed at most once |
| Billing.WebhookKeepsAtMostOnce | src/modules/stripe/stripe.service.ts:281-322 | the webhook keeps every intent completed at most once |
| Billing.NoSecondCredit | src/modules/stripe/stripe.service.ts:133-143 | once processed, confirmation is refused and the webhook leaves the ledger |
| Billing.ConfirmThenWebhook | src/modules/stripe/stripe.service.ts:281-292 | after a confirmation credits the pack's coins, a later webhook for the intent changes nothing |
| Billing.PaymentHistory | src/modules/stripe/stripe.service.ts:393-433 | the caller's own transactions newest first, `limit` of them after skipping `(page - 1) * limit`; `total` their count and `pages` the ceiling of total over limit |
| Billing.LatestOpensHistory | src/modules/stripe/stripe.service.ts:405-409 | the transaction recorded last for a user opens page 1 of that user's history, followed by the earlier ones |
| Packs.ValidatePackData | src/modules/pack/pack.service.ts:216-286 | success exactly when every rule holds; failures are BadRequest, a negative price first; the daily-without-discount warning appears exactly in its case |
| Packs.Warnings | src/modules/pack/pack.service.ts:274-285 | the daily warning appears exactly for a daily pack without a discount; a high-price warning appears exactly when price and coins are both given and the price per coin exceeds 100, and it carries that price per coin |
| Packs.EmptyRequestValid | src/modules/pack/pack.service.ts:216-286 | a request with every field absent passes |
| Packs.DailyFlagNeverRejects | src/modules/pack/pack.service.ts:274-277 | the daily flag never changes the verdict |
| Packs.CreatePack | src/modules/pack/pack.service.ts:61-81 | a taken name is a Conflict, checked before the rules; success exactly when the name is free and the rules hold |
| Packs.UpdatePack | src/modules/pack/pack.service.ts:90-115 | an unknown pack is 'Pack not found'; a new name held by another pack is a Conflict; then the rules decide |
| Packs.KeepOwnName | src/modules/pack/pack.repository.ts:218-227 | a pack may keep its own name on update, while creating another pack with it conflicts |
| Packs.EffectiveCoins | src/modules/pack/pack.service.ts:293-297 | the coins plus the bonus, or the coins alone without one |
| Packs.PricePerCoin | src/modules/pack/pack.service.ts:348-351 | times the effective coins it gives back the price; 0 when there are none |
| Packs.DiscountedPrice | src/modules/pack/pack.service.ts:358-365 | adding back the percentage of the price gives the price; the price itself without a discount |
| Packs.DiscountAmount | src/modules/pack/pack.service.ts:305-313 | a hundredth of effective coins times base price times percentage; 0 without a discount |
| Packs.DiscountedPriceBounds | src/modules/pack/pack.service.ts:358-365 | with a discount in [0, 100] the discounted price lies between 0 and the price |
| Packs.DiscountAmountIsPriceReduction | src/modules/pack/pack.service.ts:305-365 | the discount amount is exactly what the discount takes off a pack priced at the base price per coin |
| Analytics.PreviousPeriod | src/modules/analytics/analytics.service.ts:40-46 | the previous period has the same length and ends one millisecond before the current one |
| Analytics.PeriodsTile | src/modules/analytics/analytics.service.ts:40-46 | the two periods never overlap and leave no gap |
| Analytics.Round | src/modules/analytics/analytics.service.ts:53 | `Math.round`: the nearest integer, halves up |
| Analytics.RoundMonotone | src/modules/analytics/analytics.service.ts:53 | rounding is monotone |
| Analytics.RoundWhole | src/modules/analytics/analytics.service.ts:53 | whole values round to themselves |
| Analytics.PercentageChange | src/modules/analytics/analytics.service.ts:48-54 | 0 against an empty previous period, else the relative change rounded |
| Analytics.PercentageChangeSign | src/modules/analytics/analytics.service.ts:48-54 | the change follows the direction of the counts and never goes below -100 |
| Analytics.RoundedShare | src/modules/analytics/analytics.service.ts:157-158 | the share in percent rounded to the nearest integer, 0 for an empty whole |
| Analytics.CompletionRate | src/modules/analytics/analytics.service.ts:152-158 | `Math.round(completed / total * 100)` for the finished share of the period's tests, 0 for none; hence within [0, 100], 100 when all finished and 0 when none did |
| Analytics.ShareBounds | src/modules/analytics/analytics.service.ts:157-158 | a share of a part within its whole lies in [0, 100], with both ends reached |
| Analytics.PointsChange | src/modules/analytics/analytics.service.ts:160 | the difference in points, 0 when the previous value is 0 |
| Analytics.Completed | src/modules/analytics/analytics.service.ts:152-155 | the number of finished tests is the count, and the length of the filter, of tests with `finishedAt` set |
| Analytics.ParseResults | src/modules/analytics/analytics.service.ts:169-184 | a result exactly for a truthy value whose parse (`JSON.parse` for a string, the value itself otherwise) is a truthy object with `results` and `lastUpdated` keys and an object under `results`; that result is the inner object |
| Analytics.ScoreOf | src/modules/analytics/analytics.service.ts:186-189 | a score exactly for an object with numeric counts and a nonzero total; then score times total equals correct times 100 |
| Analytics.ScoreBounds | src/modules/analytics/analytics.service.ts:186-189 | a correct count within the total scores within [0, 100] |
| Analytics.TestScore | src/modules/analytics/analytics.service.ts:222-232 | a test has a mean exactly when its results parse and some participant has a score; the mean is the sum of those scores over their number |
| Analytics.Scores | src/modules/analytics/analytics.service.ts:226-228 | one score per participant that has one: as many as there are scored participants, and a single participant gives its own score or nothing |
| Analytics.ScoresAppend | src/modules/analytics/analytics.service.ts:226-228 | the scores of two runs of participants are the scores of each, in order |
| Analytics.TestScores | src/modules/analytics/analytics.service.ts:220-234 | one mean per test that has one: as many as there are such tests, and a single test gives its own mean or nothing |
| Analytics.TestScoresAppend | src/modules/analytics/analytics.service.ts:220-234 | the means of two runs of tests are the means of each, in order |
| Analytics.CalculateAverage | src/modules/analytics/analytics.service.ts:219-237 | 0 without test means, else the rounded mean of the test means |
| Analytics.SumBounds | src/modules/analytics/analytics.service.ts:231 | values within bounds sum within the scaled bounds |
| Analytics.MeanBounds | src/modules/analytics/analytics.service.ts:231-236 | the mean of values in [0, 100], and its rounding, lie in [0, 100] |
| Analytics.AverageBounds | src/modules/analytics/analytics.service.ts:219-237 | when every test mean lies in [0, 100], so does the average |
| Notifications.Matching | src/modules/notification/notification.repository.ts:28-46 | the user's rows with the status and type asked for, every one of them, newest first (the filtered table reversed) |
| Notifications.NewestListedFirst | src/modules/notification/notification.repository.ts:44-46 | a new notification that matches the filters heads the listing, and one that does not leaves it unchanged |
| Notifications.GetNotifications | src/modules/notification/notification.repository.ts:23-64 | page and limit default to 1 and 10; the rows are the matching rows newest first, `limit` of them after `(page - 1) * limit`; `total` counts the matches; `hasNext` exactly when rows remain beyond this page; `hasPrev` exactly past page 1 |
| Notifications.StatusPartition | src/modules/notification/notification.repository.ts:32-34 | read and unread listings split the full listing |
| Notifications.FindOwned | src/modules/notification/notification.repository.ts:73-78 | a row found has the id and the owner; none exactly when no such row exists |
| Notifications.GetNotification | src/modules/notification/notification.repository.ts:72-85 | found exactly when the user owns a row with the id; otherwise 'Notification not found' |
| Notifications.ReadNotification | src/modules/notification/notification.repository.ts:93-117 | fails exactly as the lookup does; a read row is returned unchanged; an unread one is marked read in place |
| Notifications.ReadIdempotent | src/modules/notification/notification.repository.ts:105-107 | reading a row a second time changes nothing |
| Notifications.MarkAllRead | src/modules/notification/notification.repository.ts:124-137 | exactly the user's unread rows become read; every other row is unchanged |
| Notifications.ReadAll | src/modules/notification/notification.repository.ts:124-137 | the reported count is the number of the user's unread rows |
| Notifications.GetStats | src/modules/notification/notification.repository.ts:232-250 | total and unread count the user's rows, and read plus unread is total |
| Notifications.StatsReadCountsRead | src/modules/notification/notification.repository.ts:245-249 | `read` counts exactly the user's read rows |
| Notifications.ReadAllClearsUnread | src/modules/notification/notification.repository.ts:124-250 | after marking all read the user has no unread rows, the same total, and the count reported was the unread count |
| Notifications.RowFor | src/modules/notification/notification.repository.ts:145-157 | a new row is unread with the input's fields, channel 'web' and priority 'normal' by default |
| Notifications.CreateForUsers | src/modules/notification/notification.repository.ts:165-182 | one row per user id is appended in order, and the count is the number of ids |
| Notifications.CreateForUsersKeepsUnique | src/modules/notification/notification.repository.ts:165-182 | fresh ids keep notification ids unique |
| Notifications.CreateNotification | src/modules/notification/notification.service.ts:112-129 | it fails exactly when the receiver is not 'users' and the user id is missing: BadRequest for 'user', a plain error for an absent or unknown receiver, which reaches the repository's single-user branch; with a user id either appends that user's row; 'users' with no users is 'No users found' and writes nothing; otherwise one row per user is appended and the message gives their number |
| Notifications.CreateBulkNotifications | src/modules/notification/notification.service.ts:204-223 | an empty id list is 'No user IDs provided'; otherwise one row per id |
| Notifications.CreateSystemNotification | src/modules/notification/notification.service.ts:180-196 | one unread system row on the web channel with normal priority is appended |
| Notifications.GetAndMarkRead | src/modules/notification/notification.service.ts:44-62 | the row is returned marked read, with the same store as reading it directly |
| Notifications.DeleteOld | src/modules/notification/notification.repository.ts:257-272 | exactly the read rows older than the cutoff go, and the count is how many |
| Notifications.KeptPlusStale | src/modules/notification/notification.repository.ts:261-268 | kept rows plus deleted rows are all the rows |
| Notifications.CleanupKeepsUnread | src/modules/notification/notification.repository.ts:266 | the cleanup never deletes an unread row |
| Paging.Skip | src/modules/notification/notification.repository.ts:25 | `(page - 1) * limit` is non-negative and one page short of `page * limit` |
| Paging.CeilDiv | src/modules/notification/notification.repository.ts:53 | `Math.ceil(total / limit)`: the fewest pages that hold all rows, 0 exactly for no rows |
| Paging.Window | src/modules/notification/notification.repository.ts:47-48 | skip/take: the rows from position `skip` on, in order, `take` of them when enough remain, all that remain on a short last page, none past the end |
| Paging.WindowCons | src/modules/notification/notification.repository.ts:47-48 | the first page of rows led by one row is that row followed by a one-shorter first page of the rest |
| Paging.PageHasRows | src/modules/test/services/test.service.ts:75 | a page is within the page count exactly when rows start on it |
| Paging.NextPageExists | src/modules/notification/notification.repository.ts:53-61 | `page < totalPages` exactly when rows lie past this page |
| Guards.Split | src/modules/auth/auth.guard.ts:25-26 | `split(' ')` gives at least one piece and no piece holds a space |
| Guards.JoinSplit | src/modules/auth/auth.guard.ts:25-26 | joining the pieces with spaces gives the header back |
| Guards.SplitJoin | src/modules/auth/auth.guard.ts:25-26 | splitting a join of space-free pieces gives the pieces back |
| Guards.ParseBearer | src/modules/auth/auth.guard.ts:21-29 | succeeds exactly when the first piece is 'Bearer' and the second is present, non-empty and not 'undefined'; every failure is Forbidden TOKEN_NOT_PROVIDED |
| Guards.BearerAccepted | src/modules/auth/auth.guard.ts:25-29 | 'Bearer ' and a token, with nothing or a space after it, gives that token |
| Guards.DoubleSpaceRefused | src/modules/auth/auth.guard.ts:25-29 | two spaces after 'Bearer' leave an empty token and the header is refused |
| Guards.CatchMap | src/modules/auth/auth.guard.ts:39-44 | a 403 passes through; anything else becomes Unauthorized WRONG_TOKEN |
| Guards.AuthGuard | src/modules/auth/auth.guard.ts:19-45 | success exactly when the header parses and the token verifies, with the verified user; a failed verification is WRONG_TOKEN |
| Guards.AdminGuard | src/common/guards/admin.guard.ts:22-57 | success exactly when the plain guard passes and the user exists with role ADMIN; a non-admin is Forbidden USER_NOT_ADMIN and an unknown user WRONG_TOKEN |
| Guards.AdminImpliesAuth | src/common/guards/admin.guard.ts:45-49 | whatever the admin guard admits, the plain guard admits with the same user |
| Guards.SameHeaderRules | src/common/guards/admin.guard.ts:24-32 | both guards refuse a bad header with the same error |
| TestService.Lookup | src/modules/test/services/test.service.ts:65 | the test found has the id; none exactly when no test has it |
| TestService.ValidateTestOwnership | src/modules/test/services/test.service.ts:138-142 | passes exactly when the test exists and is the caller's; otherwise 'Test not found' |
| TestService.GetTestById | src/modules/test/services/test.service.ts:64-68 | returns the caller's own test with the id; otherwise 'Test not found' |
| TestService.ForeignLooksMissing | src/modules/test/services/test.service.ts:138-142 | another user's test gives the same answer as a test that does not exist |
| TestService.ValidateUser | src/modules/test/services/test.service.ts:144-155 | no id is 'Unauthorized', an unknown id is 'User not found', a known id passes |
| TestService.OwnerPagination | src/modules/test/services/test.service.ts:70-83 | echoes page, limit and count, with `pages` the ceiling of count over limit |
| TestService.OwnerPageInRange | src/modules/test/services/test.service.ts:70-83 | the requested page is within `pages` exactly when rows start on it |
| TestService.DownloadTest | src/modules/test/services/test.service.ts:85-105 | ownership first; 'docx' and 'pdf' select their content types; an inherited object key passes the handler check, and the call of its missing generator is rethrown as the plain error 'Error generating <type> file: handler.generator is not a function'; any other type is 'Unsupported file type' |
| TestService.IndexOf | src/modules/test/services/test.service.ts:163-172 | the position of the test with the id, none exactly when absent |
| TestService.LookupAtIndex | src/modules/test/services/test.service.ts:163-172 | lookup by id and position by id find the same test |
| TestService.UpdateTest | src/modules/test/services/test.service.ts:157-166 | the user check, then ownership; only the caller's test is retitled, in place |
| TestService.DeleteTest | src/modules/test/services/test.service.ts:168-173 | the user check, then ownership; only the caller's test is removed, and it is returned |
| TestService.OnlyOwnerMutates | src/modules/test/services/test.service.ts:157-173 | a user who does not own the test can neither update nor delete it |
| Text.Trim | src/modules/online-test/services/answer-validation.service.ts:22 | `trim()`: no white space at either end of the result |
| Text.TrimIgnoresPadding | src/modules/online-test/services/answer-validation.service.ts:22 | white-space padding around a trimmed word is removed exactly |
| Text.Lower | src/modules/online-test/services/answer-validation.service.ts:22 | `toLowerCase()` on ASCII: each capital maps to its small letter, everything else stays |
| Text.DecimalRoundTrip | src/modules/auth/verification.service.ts:66 | `toString()` of a whole number parses back to it |
| Text.DecimalLength | src/modules/auth/verification.service.ts:66 | a number between 10^(k-1) and 10^k has k digits |
| Text.DecimalInjective | src/modules/auth/verification.service.ts:66 | different numbers give different strings |

## Left out

- Database, sockets, rooms, broadcasts, mail, logging and console output are not modelled; only the effects on the stored rows and the outcome the caller sees are.
- JWT signing and verification is a parameter. Bcrypt hashing, the Stripe SDK calls, `uuid`, `Math.random`, the clock and `JSON.parse` are parameters too.
- The cron schedule and the reading of `DAILY_COINS_AMOUNT` are not modelled; the amount is a parameter.
- DailyCoins.TriggerDailyCoins: covers only the unset default (10) or an already-numeric amount. The configuration is not validated or transformed (src/app.module.ts:11-13), so a configured amount arrives as a string, and the manual run reads it without `+` (src/modules/scheduler/services/daily-coins.service.ts:101). Then the cap test at line 106 compares a concatenated string, such as "510" for 5 coins and "10", and the increment at line 111 is a string, whose fate depends on the database client. The scheduled run coerces with `+` at line 42 and is unaffected.
- DailyCoins.DistributeDailyCoins: a failure of one user's update or notification, which the source logs and skips, is not modelled.
- Coin and pack notifications sent from the Stripe and daily-coins services are left out. So is the notification `handlePaymentIntentFailed` sends: it has no effect on the ledger.
- The date-fns calendar of the dashboard is left out: `getDateRange`, `getTestActivityData`, and month labels in `getLatestTests`. Periods are integer millisecond intervals.
- The `Date` arithmetic of the notification cleanup (`setDate(getDate() - daysOld)`) is left out. The cutoff instant is a parameter of `DeleteOld`.
- `parseInt` of notification ids is left out: ids are integers already.
- Floating point is not modelled. Prices, percentages and scores are exact rationals. Dollar and cent conversions (`toFixed`, `Math.round(dollars * 100)`) and `formatPrice` are left out.
- Packs.ValidatePackData: the source compares the raw `price` against 99999 as cents, while the pack request's documentation speaks of dollars; the model follows the code.
- Analytics.ScoreOf: only JSON numbers count. In JavaScript a numeric string is coerced and scores, a missing or non-numeric field gives `NaN`, which passes the `!== null` filter and poisons the mean, and a `null` entry throws a TypeError out of `getAverageScoreStats`. The model gives no score in all of these cases.
- Billing.PaymentHistory requires `page >= 1` and `limit >= 1`. The pagination request for payment history is not part of this model; the defaults are 1 and 10.
- Notifications.GetNotifications requires `page >= 1` and `limit >= 1`, as the query's validation (`@Min(1)`) guarantees.
- TestService.DownloadTest stops at choosing the export. Docx and PDF generation, `sendFile` and the temporary file are not modelled. Over HTTP the global `ValidationPipe` (src/main.ts:20) checks `DownloadDto.type` with `@IsIn(['pdf', 'docx'])`, so the inherited-key and 'Unsupported file type' paths are reachable only by calling the service directly.
- The identifiers of new temp codes, sessions and notifications, and the expiry of new temp codes, are parameters. The database defaults that produce them are not part of this model.
- The Prisma schema is not part of this model. The unique columns (session id and test id, code and test id, e-mail, token and code) are inferred from the `findUnique` calls.
- The older `src/modules/test/test.service.ts` and the pack listing and statistics reads are outside the core.
- `getOnlineTestByTempCodeId`, `getOnlineTestResults` and `deleteOnlineTest` of the session repository are left out: nothing in the core calls them.
- The gateway's `handleConnection` and `handleDisconnect` only log and are left out.
- Concurrency is not modelled: every operation runs alone, one after another. Billing.CreditKeepsAtMostOnce, Billing.ConfirmKeepsAtMostOnce, Billing.WebhookKeepsAtMostOnce and Billing.NoSecondCredit hold only under that sequential execution. In the source the processed check (src/modules/stripe/stripe.service.ts:133-143 and 281-292) runs outside the crediting transaction (156-176 and 303-322), so a confirmation and a webhook that interleave could both credit. The join-code and verification-code creates are check-then-create in the same way.
- Notifications.Matching and Billing.PaymentHistory read the table order as creation order: `createdAt` ties and rows written with out-of-order timestamps are not modelled.
- Guards.AuthGuard: the verifier is a parameter that yields a user id or nothing, so a token that verifies but whose payload has no `userId` is not represented; the source would accept it with an undefined user id.
- Notifications.RowFor: the notification's free-form `data` payload, which the repository stores with each row (src/modules/notification/notification.repository.ts:152 and 171), is not modelled.
- Notifications.CreateNotification reports a count of 1 for a single-user notification, where the source returns the created row instead of a count.
- `toLowerCase` is modelled for ASCII letters only; Unicode case mapping is left out. `trim` covers every ECMAScript white-space and line-terminator character.

## Findings

| source | as written | input that shows it | evidently intended | confidence | as-written member | corrected member |
|---|---|---|---|---|---|---|
| src/modules/online-test/services/answer-validation.service.ts:109 | `totalQuestions` grows on every submission, and a re-submission overwrites the question's entry | a participant answers one question wrongly and then correctly: one entry (correct), but `totalQuestions` 2, `correctAnswersCount` 1, `incorrectAnswersCount` 1, accuracy 50 | each question counted once, the counters moved from the old verdict to the new one | medium, not executed | AnswerValidation.ResubmissionInflatesTotal | AnswerValidation.ProcessAnswerOnceCountsMatchTrace |
| src/gateways/online-test/online-test.gateway.ts:295-298 | the answer handler calls `_updateOnlineTestResults`, which the online-test service does not define, so every accepted selection throws and is reported as 'Failed to process answer selection' | any selection by a participant of a started, unfinished session | the session's results hold the selected answer and the selection is broadcast | high, not executed | OnlineTestGateway.SelectAnswerNeverStores | OnlineTestGateway.SelectAnswerCorrected |
