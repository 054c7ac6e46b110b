# Lauth: a verified model

Lauth is an authentication server with a plugin system, a rule engine, an audit log and an OAuth code
flow. This project models the state machines at its core and proves what they guarantee over every input
and every run. To check it, call `dafny verify dfyconfig.toml` in this directory.

## How it is laid out

A component comes in two parts. One module gives every operation as a function of the stored state, with
the theorems about all runs of these operations. Beside it stands a class whose methods carry the
operations out on fields, maps and arrays as the program does; each method ensures that its result and its
new state are those of the function, so the theorems hold of the methods. What the functions themselves answer
is pinned down from outside: for each of the main operations a lemma says, in terms of its inputs and of
what happened earlier, exactly when it succeeds and what it leaves.

| component | operations and theorems | step by step |
|---|---|---|
| token lifecycle over Redis | `Tokens`, `TokenLaws` | `TokenService` |
| OAuth code flow, code texts | `Authorization`, `CodeGrants`, `Base64Url` | `AuthorizationService` |
| rules, their cache, races between loads and edits | `RuleParser`, `RuleTables`, `RuleCacheRace` | `RuleEngine` |
| audit log: chain, segments, index, reading | `HashChain`, `AuditSegments`, `AuditVerification`, `AuditTrail`, `AuditAnswers` | `AuditWriter`, `AuditReader` |
| verification sessions, completion check, login gate | `VerificationTables`, `VerificationFlow`, `VerificationLaws`, `LoginGate`, `LoginExamples` | `PluginChecks`, `VerificationService` |
| one-time links and codes | `OneTimeStore` | `OneTimeStore` |
| plugin state machine and manager | `PluginBase`, `PluginTrace`, `PluginManager` | `PluginBase`, `PluginManagerService` |
| dependency graph printer | `DependencyWalk` | `DependencyWalk` |

`Common` holds options, results, sorting and splitting; `SampleCrypto` an encoding and a hash as the chain asks for.

## What stands for what

- Redis is a map with a deadline per key and a clock that does not go back. Instants and durations are whole
  nanoseconds; a failing Redis call leaves the map as it was.
- A signed token is its claims: equal claims give the same text, and a text nobody signed does not verify.
  The parser refuses a token from its exp on, as section 4.1.4 of RFC 7519 says.
- A database table is a map or a sequence of rows. Where a query names no order, rows are listed in any order;
  only what inheritance does to a verdict depends on it. Failing calls are inputs: an operation stops at
  them, or goes on where the program does, and what it has done so far stays.
- SHA-256 and the JSON encoding of a record are injective and never give the empty text (`HashChain.Ideal`).
- What plugins, hooks, middleware, the password check, random draws and the user tables answer are inputs of
  the operations, so every theorem holds whatever they answer. A login or registration asks the plugin
  manager twice, and the answers may differ; within one of the two lists and its check they do not.

## Where the code does less than its comments say

The model follows the code. For each point a lemma states the condition under which it happens, and where
that shows no run by itself, another gives one:

- a redeemed authorization code stays redeemable until it expires, because its delete passes the row id
  (`Authorization.CodeRedeemableUntilExpiry`, `CodeRedeemedTwice`; section 4.1.2 of RFC 6749 asks for single use);
- the refresh response names all scopes of the client (`Authorization.RefreshResponseScope`, `RefreshNamesMore`);
- a refresh token can be exchanged twice exactly when the first exchange comes at the instant it was minted
  (`Tokens.ExchangedTwiceExactly`, `SameInstantExchangesTwice`);
- a logout can report success and leave the refresh token exchangeable (`Tokens.LogoutExact`, `LogoutLeavesToken`);
- an update that moves an active rule to another app deletes the wrong cache entry (`RuleTables.MovedRuleLeavesStale`),
  and a load that an edit overtakes leaves a stale entry behind (`RuleCacheRace.StaleOnlyInRaces`, `OvertakenLoadStaysStale`);
- conditions with `in` and `not_in` always err, since `Parse` keeps every value as a string
  (`RuleParser.ListConditionErrs`, `ListConditionNeverAllows`);
- a file of the audit log passes verification exactly if nothing else was chained while it was being filled
  (`AuditVerification.FileVerifiesExactly`, `InterleavedFileFails`), since all apps share one chain;
- the size in an audit index is that of the segment written last, which is the total its field name suggests
  exactly when there is one segment (`AuditSegments.IndexSizeExactly`);
- `Unload` of an initialized or running plugin clears its configuration and is then refused
  (`PluginBase.UnloadTooEarly`, `InOrderExactly`);
- an uninstall or a saved configuration that fails half-way leaves a plugin in memory that does not run
  (`PluginManager.UninstallExactly`, `SaveExactly`, `FailedUninstallStrands`);
- when either of the two readings of the plugin list fails, the gate no longer holds anyone back
  (`LoginGate.UnlistedOpens`, `LoginExamples.OneFailureOpens`);
- since the writer never lists files in the index and leaves an open file where the day it was opened put it,
  only the records of files opened on the current day are found (`AuditTrail.FindsAllExactly`,
  `OthersNeverFound`, `LostAcrossMidnight`), and a file that is read twice is answered twice
  (`AuditReader.ExactForFiles`);
- an inherited status can make a plugin count as completed again whose latest row says otherwise
  (`LoginGate.InheritedVerdict`, `LoginExamples.InheritedOverFailure`), though never one without a completed row
  (`VerificationFlow.InheritConserves`);
- the line "(circular dependency!)" is never printed (`DependencyWalk.ForestPrints`).

## Model

| member | source | states |
|---|---|---|
| `Tokens.OnlyLatestExchanged` | internal/service/token.go:175-199 | In every run a refresh token that is exchanged was minted by the last pair issued to its user |
| `Tokens.StoredIsLatest` | internal/service/token.go:100-104 | What a refresh key holds is the refresh token minted last for that user |
| `Tokens.ExchangedAtMostOnce` | internal/service/token.go:175-199 | In every clocked run a refresh token is exchanged at most once, unless it is exchanged at the very instant it was minted |
| `Tokens.SecondExchangeExactly` | internal/service/token.go:175-199 | Right after an exchange the same token is exchangeable at a later instant exactly when it is not expired by then and was exchanged at the instant it was minted |
| `Tokens.ExchangedTwiceExactly` | internal/service/token.go:175-199 | A token just exchanged can be exchanged again in some continuation of the run if and only if it was exchanged at the instant it was minted |
| `Tokens.DistinctTextsOnce` | internal/service/token.go:175-199 | Whatever the clock does, no token is exchanged twice while no text is minted twice |
| `Tokens.DistinctInstants` | internal/service/token.go:55-70 | Token texts are distinct whenever one user's pairs are minted at distinct instants |
| `Tokens.SameInstantExchangesTwice` | internal/service/token.go:55-70 | A run in which that happens: a pair exchanged at the instant it was minted is exchanged again |
| `Tokens.RevocationPermanent` | internal/service/token.go:202-231 | After a successful revocation or logout of a token no validation at any later time accepts it, whatever runs in between and whichever Redis calls fail |
| `Tokens.MarksAlwaysHold` | internal/service/token.go:217-222 | In every run each key on the revocation list lives at least until the exp of its token |
| `Tokens.SignedInPast` | internal/service/token.go:55-70 | In every run a signed token expires no later than its lifetime from now |
| `Tokens.LogoutFinal` | internal/service/auth_token.go:76-96 | After a logout without Redis failures, a refresh token of that user exchanged later was minted after the logout |
| `Tokens.LogoutExact` | internal/service/auth_token.go:76-96 | A logout that reports success leaves an exchangeable refresh token exchangeable exactly when reading, checking or marking that token failed |
| `Tokens.LogoutLeavesToken` | internal/service/auth_token.go:76-96 | A run in which that happens: the logout reports success and the refresh token is exchanged afterwards |
| `TokenLaws.AcceptedExactly` | internal/service/token.go:115-172 | In every clocked run a token is accepted exactly when some earlier event signed it and none put it on the revocation list, it is of the type asked for and has not expired, and the list could be read; what is answered are its claims |
| `TokenLaws.SignedExactly` | internal/service/token.go:55-112 | What verifies are the two tokens, with their user, app, scope and lifetime, of each earlier issue or exchange, also of those whose pair could not be stored |
| `TokenLaws.MarkedExactly` | internal/service/token.go:202-231 | A token is on the revocation list exactly when an earlier revocation or logout accepted it and could write the mark |
| `TokenLaws.ExchangedExactly` | internal/service/token.go:175-199 | In every clocked run a refresh token is exchanged exactly when it was minted last for its user, its key was not deleted since, it is not on the revocation list and not expired, and the calls to Redis work |
| `TokenLaws.RevokedExactly` | internal/service/token.go:202-231 | A revocation succeeds exactly for a token that is accepted, if the mark can be written and, for a refresh token, its key deleted |
| `TokenLaws.LoggedOutExactly` | internal/service/auth_token.go:76-96 | A logout succeeds exactly when its access token is accepted and can be marked, whatever happens to the refresh token |
| `TokenLaws.RefreshedExactly` | internal/service/auth_token.go:29-73 | The refresh endpoint hands out the new pair exactly when the exchange succeeds, the new token is accepted, and the account is there and enabled; otherwise the exchange stands all the same |
| `TokenService.Service.GenerateToken` | internal/service/token.go:55-70 | Signs the claims with exp at now plus the given duration |
| `TokenService.Service.GenerateTokenPair` | internal/service/token.go:73-112 | The step of the run theorems for issue: new pair, refresh key set with the refresh lifetime, or an error |
| `TokenService.Service.ValidateToken` | internal/service/token.go:115-172 | The validation the run theorems speak of, changing nothing |
| `TokenService.Service.RefreshToken` | internal/service/token.go:175-199 | The step for exchange |
| `TokenService.Service.RevokeToken` | internal/service/token.go:202-231 | The step for revocation, with the state left by each failing call |
| `TokenService.Service.RefreshLoginToken` | internal/service/auth_token.go:29-73 | The step for the refresh endpoint: the account is queried, and may be missing or disabled, only after the exchange |
| `TokenService.Service.LogoutUser` | internal/service/auth_token.go:76-96 | The step for logout, which swallows failures on the refresh token |
| `Base64Url.DecodeEncode` | internal/model/oauth.go:182-195 | Decoding a code text gives the drawn bytes back, so different bytes have different texts |
| `Base64Url.TextLength` | internal/plugin/verification/link_manager.go:120-130 | n bytes encode to four characters per started group of three |
| `Base64Url.CodeText` | internal/model/oauth.go:182-195 | 32 bytes encode to 43 alphabet characters and one pad |
| `Base64Url.UnescapeSpelling` | internal/service/authorization.go:227-234 | Unescaping a text gives exactly the string that the text spells raw or in percent escapes |
| `Base64Url.CodeRecovered` | internal/service/authorization.go:227-254 | The stored code text is what is looked up exactly when the received text spells it, with or without the final pad |
| `Base64Url.AlphabetSpellsItself` | internal/service/authorization.go:227-243 | A code text sent raw spells itself |
| `Base64Url.KnownTexts` | internal/model/oauth.go:182-195 | Texts given in section 10 of RFC 4648, and one with both characters of the URL-safe alphabet |
| `Authorization.ScopeConserved` | internal/service/authorization.go:296-338 | Every token that descends from a code through any number of refreshes carries the code's user and scope, the client's app, and only scopes allowed when Authorize ran |
| `Authorization.CodeGrantDescends` | internal/service/authorization.go:341-368 | Every token handed out by the code grant descends from some earlier Authorize call |
| `Authorization.RowOrigin` | internal/repository/authorization_code.go:35-52 | In every run each code row was put there, as it is, by an Authorize call |
| `Authorization.CodeRedeemableUntilExpiry` | internal/service/authorization.go:341-368 | A redeemed code is redeemable again by the same request exactly until it expires: the delete passes the row id where the code text is compared |
| `Authorization.CodeRedeemedTwice` | internal/service/authorization.go:341-368 | A run in which that happens: one code is redeemed twice |
| `Authorization.RefreshResponseScope` | internal/service/authorization.go:371-406 | The refresh response names all the client's scopes, which is the tokens' scope exactly when the texts agree |
| `Authorization.RefreshNamesMore` | internal/service/authorization.go:395-405 | A refresh response that names a scope its tokens do not carry |
| `Authorization.StoreIsTokens` | internal/service/authorization.go:296-406 | The token store of any run of OAuth requests is that of a run of the token service alone |
| `Authorization.TokensClocked` | internal/service/authorization.go:296-406 | That run is clocked if the OAuth run is |
| `Authorization.RevocationPermanentInGrants` | internal/service/token.go:202-231 | A revocation stays permanent among code and refresh grants |
| `Authorization.OnlyLatestTraded` | internal/service/authorization.go:371-406 | A refresh token traded in by any grant or login is the one minted last for its user by any of them |
| `CodeGrants.AuthorizesExactly` | internal/service/authorization.go:53-139 | Authorize stores a row, good for ten minutes, exactly when the client is known, enabled, may use codes, and registered the URI and every part of the scope; it answers the code exactly when the URI can also be parsed and the id token made |
| `CodeGrants.RowsExactly` | internal/service/authorization.go:85-98 | In every run the rows are exactly those of such calls, none changed or removed |
| `CodeGrants.CodeGrantExactly` | internal/service/authorization.go:227-293 | In every run a code grant succeeds exactly when the secret is right, the calls involved work, and the code spells the text of an earlier Authorize call of the same client, with the same redirect URI up to its query, less than ten minutes ago; the response names that scope, with an id token if it asks for openid |
| `CodeGrants.RefreshGrantExactly` | internal/service/authorization.go:371-406 | In every clocked run a refresh grant succeeds exactly when client and secret are right, the token is of the client's app, was minted last for its user, was neither dropped nor revoked since and has not expired, and the calls involved work |
| `CodeGrants.OnlyTwoGrants` | internal/service/authorization.go:212-223 | No other grant type gets tokens or changes anything |
| `AuthorizationService.Service.ValidateScope` | internal/service/authorization.go:152-167 | True exactly when every space-separated part is an allowed scope |
| `AuthorizationService.Service.Authorize` | internal/service/authorization.go:53-139 | The step of the run theorems for Authorize, with each failing call; `AuthorizesExactly` says what it stores and answers |
| `AuthorizationService.Service.HandleCodeGrant` | internal/service/authorization.go:341-368 | The step for the code grant, whose success `CodeGrantExactly` characterises |
| `AuthorizationService.Service.HandleRefreshGrant` | internal/service/authorization.go:371-406 | The step for the refresh grant, whose success `RefreshGrantExactly` characterises |
| `AuthorizationService.Service.IssueToken` | internal/service/authorization.go:180-224 | The step for a token request of any grant type, with failing client and secret queries |
| `RuleParser.AllowsExactly` | pkg/engine/engine.go:134-165 | An enabled rule allows exactly when it has conditions and each has a known operator and a true test, which the next three rows spell out |
| `RuleParser.OrderHolds` | pkg/engine/parser.go:128-346 | On text gt holds exactly when at the first difference the actual text has the greater character, or the operand is a proper prefix of it; lt is its mirror, gte and lte are the negations; any other value is neither before nor after |
| `RuleParser.MatchHolds` | pkg/engine/parser.go:91-312 | eq holds exactly for that very text and ne for all else; contains for a text with the operand as a slice or a list with it as an item, and not_contains for the other texts and lists |
| `RuleParser.DecidedExactly` | pkg/engine/parser.go:97-317 | A condition is decided exactly when the data has its field and its operator compares, or looks into a text or a list; otherwise it errs and does not hold |
| `RuleParser.ListConditionErrs` | pkg/engine/parser.go:205-251 | A condition with in or not_in errs on all data |
| `RuleParser.ListConditionNeverAllows` | pkg/engine/parser.go:38-63 | A rule with such a condition never allows, whatever else it asks for |
| `RuleParser.ParsedTests` | pkg/engine/parser.go:19-63 | Parsing succeeds exactly when every operator is known, and keeps the conditions in order |
| `RuleParser.AllTrue` | pkg/engine/parser.go:70-81 | The conjunction is true exactly when every test is |
| `RuleParser.ErrorDependsOnOrder` | pkg/engine/parser.go:70-81 | Conditions that err in one order and are false in the other |
| `RuleParser.VerdictIgnoresOrder` | pkg/engine/engine.go:95-131 | Lists with the same rules, in any order and with conditions in any order, have the same verdict |
| `RuleParser.FirstHasGreatestPriority` | pkg/engine/engine.go:110-131 | On a priority-descending list the rule returned has the greatest priority of all that allow |
| `RuleParser.FirstAllowing` | pkg/engine/engine.go:110-131 | The loop returns the first enabled rule that allows, or none when none does |
| `RuleTables.ReadingsAgree` | internal/repository/rule.go:148-162 | Whatever order the database answers in, evaluating what it gives has one verdict |
| `RuleTables.ReadingOfOtherApp` | internal/service/rule.go:84-110 | Under an edit that keeps its rule in its app, a list is a reading of another app afterwards exactly when it was before |
| `RuleTables.OtherAppUntouched` | internal/service/rule.go:52-190 | Such an edit leaves the active rows and conditions of other apps as they were |
| `RuleTables.MovedRuleLeavesStale` | internal/service/rule.go:84-110 | Of an app the updated rule is not in afterwards, an old reading goes wrong exactly when the rule was active there, and no cache entry of that app is deleted |
| `RuleTables.EditIsRead` | internal/repository/rule.go:46-145 | What is read after an edit has the given rule for Create; for Update the given settings with the old conditions; no such rule for Delete; and for the others the rule as it was with the conditions added, exchanged or removed |
| `RuleTables.EditSparesOthers` | internal/repository/rule.go:46-145 | Every rule of another id is read after an edit exactly as before |
| `RuleCacheRace.AlwaysInv` | pkg/engine/engine.go:168-192 | What every interleaving of loads, edits and expiry keeps of loads and entries |
| `RuleCacheRace.StaleOnlyInRaces` | pkg/engine/engine.go:168-192 | In every interleaving a cached list that is not what a load would read now has an edit written but not deleted, or was set by a load begun before an edit's write, after that edit's delete |
| `RuleCacheRace.StaysStale` | pkg/engine/cache.go:47-65 | A stale entry stays as it is until it expires, is deleted or set again, or its app is written |
| `RuleCacheRace.OvertakenLoadStaysStale` | pkg/engine/engine.go:168-192 | An overtaken load leaves a stale entry with every edit finished, and it stays stale in every continuation that does not touch it |
| `RuleEngine.VerdictOfReadings` | pkg/engine/engine.go:95-131 | A verdict and a top priority found on one reading hold for all readings |
| `RuleEngine.Engine.LoadRules` | pkg/engine/engine.go:168-192 | Caches a reading of the tables, good for 24 hours |
| `RuleEngine.Engine.Evaluate` | pkg/engine/engine.go:95-131 | Cached or not, the answer is that of evaluating the tables as they are, and the rule returned has the greatest priority of those that allow; `AllowsExactly` and the laws of the operators say which rules allow |
| `RuleEngine.Engine.InvalidateCache` | pkg/engine/engine.go:195-197 | Drops the app's entry unless Redis fails |
| `RuleEngine.Engine.CreateRule` | internal/service/rule.go:52-69 | Refuses a taken name, an id the table has and a failed name query; otherwise writes and invalidates, with the tables, cache and reply that each failure leaves; cache and tables stay together |
| `RuleEngine.Engine.UpdateRule` | internal/service/rule.go:84-110 | Refuses a missing rule, a taken name and failed queries; otherwise writes and invalidates, and after a success cache and tables agree exactly when the rule stayed in its app, was disabled, or its old app has nothing cached |
| `RuleEngine.Engine.DeleteRule` | internal/service/rule.go:113-128 | Refuses a missing rule and a failed query; otherwise deletes and invalidates, with what each failure leaves |
| `RuleEngine.Engine.EditConditions` | internal/service/rule.go:136-190 | Refuses a missing rule, a failed query and an empty list; otherwise writes and invalidates, with what each failure leaves |
| `HashChain.VerifyChain` | internal/audit/hash_chain.go:80-101 | True exactly when every record is intact and names the hash before it |
| `HashChain.Chain.AddLog` | internal/audit/hash_chain.go:45-65 | Links the record behind the last hash, or changes nothing when it cannot be encoded |
| `HashChain.SameEndSameTail` | internal/audit/hash_chain.go:80-101 | Of two accepted sequences with one final hash the shorter is a suffix of the longer |
| `HashChain.TamperEvident` | internal/audit/hash_chain.go:80-101 | Accepted sequences with one final hash are equal if both start with an empty previous hash |
| `HashChain.ChainDistinct` | internal/audit/hash_chain.go:45-65 | No two records of one chain have the same hash |
| `HashChain.PickedIntact` | internal/audit/hash_chain.go:80-101 | Records picked from a chain in order verify exactly when they are consecutive in it |
| `SampleCrypto.SampleIsIdeal` | internal/audit/hash_chain.go:25-42 | An encoding and a hash that meet all that is asked of them exist |
| `AuditSegments.SegmentsHoldRecords` | internal/audit/writer.go:58-203 | In every run an app's segments end to end are exactly its records in write order, and its index counts them and bounds their timestamps tightly |
| `AuditSegments.IndexSizeExactly` | internal/audit/writer.go:168-203 | The size in an app's index is the total of all its records exactly when one segment holds them all |
| `AuditSegments.RecordsEncoded` | internal/audit/writer.go:88-99 | Whatever is in a file could be encoded |
| `AuditSegments.WritesExactly` | internal/audit/writer.go:58-117 | A write succeeds exactly when its record can be encoded before and after it is hashed and no call fails; the record is then the last of its app and of the chain, intact, with the default app and the present instant only where they were missing, and no other app is touched |
| `AuditSegments.AlwaysInv` | internal/audit/writer.go:58-165 | What every run keeps of the files and the index of each app |
| `AuditSegments.FoldCounts` | internal/audit/writer.go:168-203 | The index counts each event type and the total exactly |
| `AuditVerification.ChainBuilt` | internal/audit/writer.go:78-81 | All apps' records of a run form one intact chain |
| `AuditVerification.RecordsAtPlaces` | internal/audit/writer.go:78-117 | An app's records are the chain's records at its places |
| `AuditVerification.ConsecutiveMeans` | internal/audit/writer.go:78-117 | A stretch of an app's places is consecutive exactly when every record chained inside it was written for that app |
| `AuditVerification.StretchIntact` | internal/audit/hash_chain.go:80-101 | A stretch of an app's records passes verification exactly when nothing else was chained inside it |
| `AuditVerification.FileVerifiesExactly` | internal/audit/reader.go:348-375 | A closed file passes verification exactly when no record of another app and no failed write was chained between its records |
| `AuditVerification.InterleavedFileFails` | internal/audit/reader.go:348-375 | A run in which verification fails: two apps take turns, and the first one's rotated file is refused |
| `AuditVerification.RotatedSizes` | internal/audit/writer.go:108-165 | Every rotated file holds at least rotateSize bytes and, when no index write failed, less than that plus its last record |
| `AuditWriter.Writer.GetCurrentFile` | internal/audit/writer.go:120-153 | Opens a new segment, under the given timestamp, only when none is open, whatever its day |
| `AuditWriter.Writer.UpdateIndex` | internal/audit/writer.go:168-203 | Counts the record in the app's index and no other |
| `AuditWriter.Writer.CloseCurrent` | internal/audit/writer.go:156-165 | Ends the open segment and touches no other app |
| `AuditWriter.Writer.Write` | internal/audit/writer.go:58-117 | The step of the run theorems for a write, with each failing call |
| `AuditWriter.Writer.Close` | internal/audit/writer.go:236-250 | The step for closing: every open segment ends as it is |
| `AuditReader.FilterPicks` | internal/audit/reader.go:263-282 | The records kept are those at exactly the matching places, in their order |
| `AuditReader.IsFileRelevant` | internal/audit/reader.go:200-224 | Decides relevance by time range and event counts |
| `AuditReader.PruningExact` | internal/audit/reader.go:75-87 | With index entries that are true of their files, reading the relevant files gives what reading all gives |
| `AuditReader.PrunedSame` | internal/audit/reader.go:75-87 | With such entries the relevant files hold every matching record of all files, each as often |
| `AuditReader.PagesPartition` | internal/audit/reader.go:50-63 | Pages of any positive size, end to end, are the list they are cut from |
| `AuditReader.PageEmpty` | internal/audit/reader.go:55-58 | A page is empty exactly when the pages before it hold that whole list |
| `AuditReader.PagesHoldEverything` | internal/audit/reader.go:29-64 | Over a fixed directory the answers to consecutive pages, end to end, are the matching records of all apps in time order, each as often as the files read hold it, a file read twice counting twice |
| `AuditReader.AppAnswerExact` | internal/audit/reader.go:139-170 | A query of one app answers its matching records in time order, each as often as the files read hold it |
| `AuditReader.ExactForFiles` | internal/audit/reader.go:75-124 | An answer has each record as often as the set of files does if and only if no file that is read twice has a record that matches |
| `AuditReader.GatherExact` | internal/audit/reader.go:42-48 | What is gathered are exactly the matching records of the relevant and the current day's files of every app with an index |
| `AuditReader.ScanExact` | internal/audit/reader.go:256-288 | Reading a list of files succeeds exactly when each is readable, and finds exactly their matching records |
| `AuditReader.SortExists` | internal/audit/reader.go:127-136 | A function that sorts by time without losing or repeating records exists |
| `AuditReader.GatherIgnoresPage` | internal/audit/reader.go:29-64 | The records found do not depend on the page asked for |
| `AuditAnswers.AnsweredExactly` | internal/audit/reader.go:291-345 | Answers are in time order; every answered record meets each filter the query sets and is in a file that is read, and where no page cuts it off, each such record is answered as often as those files hold it |
| `AuditAnswers.FilterKeeps` | internal/audit/reader.go:291-345 | For each filter by user, address, status, event type, start or end: the answer with it is the answer without it kept by that one field, and it never makes a query fail; event type and time need index entries that are true of their files |
| `AuditAnswers.AppFilterKeeps` | internal/audit/reader.go:29-64 | Asking for one app gives what asking for all gives, kept by the app, where the files of each app hold only its own records |
| `AuditAnswers.AnswersWhenReadable` | internal/audit/reader.go:29-170 | A query is answered exactly when the directory, the indexes, the days and the files it has to read can be read and every app id is valid |
| `AuditReader.Reader.LoadIndex` | internal/audit/reader.go:173-197 | Returns the cached index, or the one on disk, which it then keeps for good, or fails when it cannot be read |
| `AuditReader.Reader.ReadFile` | internal/audit/reader.go:256-288 | The matching records of one file |
| `AuditReader.Reader.ReadHistoricalLogs` | internal/audit/reader.go:75-87 | The matching records of the relevant files in index order |
| `AuditReader.Reader.ScanCurrentDay` | internal/audit/reader.go:90-124 | The matching records of the current day's files |
| `AuditReader.Reader.ReadAppLogs` | internal/audit/reader.go:139-170 | One app's records in time order, or nothing without an index, or the first failure |
| `AuditReader.Reader.ReadLogs` | internal/audit/reader.go:29-64 | The answer that the theorems on pages and the laws of `AuditAnswers` speak of: one app's records, or a page of those of all apps |
| `AuditTrail.OnlyTodaysFilesFound` | internal/audit/reader.go:90-170 | With the index the writer saves, which lists no files, a query of an app finds exactly the matching records of the files opened on the current day |
| `AuditTrail.FindsAllExactly` | internal/audit/writer.go:120-153 | Such a query finds every matching record of the app, as often as it was written, if and only if every file that holds one was opened on the current day |
| `AuditTrail.OthersNeverFound` | internal/audit/reader.go:75-87 | No record of a file opened on another day is ever found, not even one written today |
| `AuditTrail.LostAcrossMidnight` | internal/audit/writer.go:120-143 | A run in which that happens: of two records on two days in one file, a query on the second day succeeds and finds nothing |
| `AuditTrail.RecordsDistinct` | internal/audit/hash_chain.go:45-65 | No two records written for an app are equal |
| `PluginChecks.RequiredExact` | internal/service/verification_plugin.go:50-127 | The list fails exactly when a plugin's own check does; otherwise it holds one pending entry per wanted plugin in configuration order |
| `PluginChecks.GetRequiredExact` | internal/service/verification_plugin.go:52-55 | Leaving early when no plugin is enabled agrees with the loop, but a failed query of the list asks for nothing at all |
| `PluginChecks.ListsExactly` | internal/service/verification_plugin.go:50-127 | The list names exactly the plugins that are enabled, run in the app, cover the action, and are required or say they are needed, all pending |
| `PluginChecks.GetRequiredPlugins` | internal/service/verification_plugin.go:50-127 | The loop draws up that list or fails, failing queries included |
| `PluginChecks.BuildStatusMaps` | internal/service/verification_plugin.go:142-150 | Both maps hold the last row of each plugin |
| `PluginChecks.ValidateSinglePlugin` | internal/service/verification_plugin.go:277-313 | Judges one requirement and marks it in place exactly when a record or a validation satisfies it |
| `PluginChecks.JudgesExactly` | internal/service/verification_plugin.go:173-215 | A requirement is satisfied exactly by a completed last row, by a plugin that is gone or not Verifiable, or by one that accepts its last row; the check breaks exactly when a plugin that is asked fails |
| `PluginChecks.ValidateRequiredPlugins` | internal/service/verification_plugin.go:217-245 | One pass over the required entries, marking in place |
| `PluginChecks.ValidateOptionalPlugins` | internal/service/verification_plugin.go:248-274 | One pass over the optional entries, marking in place |
| `PluginChecks.FailsExactly` | internal/service/verification_plugin.go:316-373 | The check fails exactly when a plugin it examines fails to judge itself |
| `PluginChecks.CompletedExactly` | internal/service/verification_plugin.go:316-373 | Completed exactly when every requirement is satisfied; the next plugin is the first unmet required one, or else the first unmet optional one |
| `PluginChecks.MarksExactly` | internal/service/verification_plugin.go:277-373 | The list returned is the requirements in order with exactly the examined, satisfied ones marked |
| `PluginChecks.ValidatePluginStatusBySession` | internal/service/verification_plugin.go:316-373 | The whole check of a session, as the lemmas above describe it, failing queries included |
| `VerificationTables.NewestExact` | internal/repository/verification_session_postgres.go:50-62 | The active session is one that is alive and none alive is newer |
| `VerificationFlow.InheritConserves` | internal/service/verification_session.go:44-73 | Inheriting a status gives no plugin a completed record that had none |
| `VerificationFlow.ClearExact` | internal/service/verification_status.go:121-167 | A clean-up removes exactly the completed records it gets to before a call fails, and if it reports success none of the user or the temporary user is left for the action |
| `VerificationFlow.ClearSucceedsExactly` | internal/service/verification_status.go:121-167 | A clean-up succeeds exactly when none of the calls it makes fails, and then drops the active session of the user and that of the temporary user and no other |
| `VerificationLaws.ActiveExactly` | internal/repository/verification_session_postgres.go:50-77 | The active session of a user, or of an identifier of one type, is one of the app that has not expired, and no such session is newer |
| `VerificationLaws.UserSessionLives` | internal/repository/verification_session_postgres.go:26-47 | A new session of a user is found under its id for half an hour and is the one asked for |
| `VerificationLaws.IdentifierSessionLives` | internal/service/verification_session.go:102-127 | The same for a session by identifier, which has no user and is the active one for its identifier |
| `VerificationLaws.SetUserExactly` | internal/service/verification_session.go:146-165 | Giving a session its user succeeds exactly when the calls work and the session is alive; it changes the user of that session and nothing else |
| `VerificationLaws.UpdateIsLatest` | internal/service/verification_status.go:34-66 | An update makes the status the latest of that user, action and plugin and of no other, and fails exactly when the save does, or a running Verifiable plugin that has just been completed cannot say whether it is needed |
| `VerificationLaws.SessionUpdateIsLatest` | internal/service/verification_status.go:69-118 | The same through a live session with a user, failing also without one or when the plugin's callback does |
| `VerificationLaws.SessionUpdateIsSeen` | internal/service/verification_status.go:69-118 | With or without a user, the status is what the checks of exactly those sessions see that share app, action and user or identifier |
| `VerificationLaws.InheritsExactly` | internal/service/verification_session.go:44-73 | A session inherits a completion exactly when there is one less than half an hour old, and then one that none is newer than, written again as the last row |
| `LoginGate.GateJudgesOwnSession` | internal/service/auth_account.go:88-119 | The gate checks the session it has just created, over the rows that creation left, against the second of the two lists it draws up |
| `LoginGate.OpensExactly` | internal/service/auth_account.go:206-218 | A gate opens exactly when its calls to the tables work, both lists can be drawn up, checking the second does not fail, and the first is empty or all of the second is satisfied |
| `LoginGate.OpensAlike` | internal/service/auth_account.go:206-218 | When both lists are alike that means: when its calls work, the list can be drawn up and all of it is satisfied |
| `LoginGate.LoginIssuesExactly` | internal/service/auth_account.go:262-358 | A login hands out tokens exactly when the user exists, gave the right password, is not disabled, and is a super administrator at the first login or finds the gate open, if the query and the tokens work; who is refused before the gate or skips it leaves the tables as they were |
| `LoginGate.GatedLoginExactly` | internal/service/auth_account.go:318-348 | For everyone else who is recognised that means: the calls work, both lists can be drawn up and checked, and the first is empty or all of the second is satisfied |
| `LoginGate.RegisterIssuesExactly` | internal/service/auth_account.go:180-259 | A registration hands out tokens exactly when the app is known, the name free, the gate open, the user created and cleaned up after, and the tokens made; a refusal before the gate changes nothing |
| `LoginGate.UnlistedOpens` | internal/plugin/manager.go:445-469 | If the first reading of the plugin list fails, the gate opens exactly when its calls work and checking the second list does not fail; if the second fails, exactly when its calls work and the first list can be drawn up |
| `LoginExamples.OneFailureOpens` | internal/plugin/manager.go:445-469 | A user without any record whom a required plugin keeps out gets in when either of the two readings fails |
| `LoginGate.OpenNeedsRecord` | internal/service/auth_account.go:328-332 | In whatever order rows are listed, no gate whose first list asks for anything opens past a plugin that the second requires, unless that plugin has a completed record or consents |
| `LoginGate.DemandedTwiceNeedsRecord` | internal/service/auth_account.go:328-332 | The same for a plugin that both lists require |
| `LoginGate.StepRecords` | internal/service/verification_status.go:34-118 | Each step, failing calls included, leaves a completed record exactly if it records the completion, or the record was there and it does not get to clear it |
| `LoginGate.RecordsExactly` | internal/service/verification_session.go:43-99 | In every run a completed record stands exactly when a completion was recorded and not cleared since |
| `LoginGate.CompletedBetweenLogins` | internal/service/auth_account.go:320-348 | Between two logins of a user that went through the gate, the first with a clean-up that worked, every plugin that the second requires has a new completion recorded, unless the plugin vouches for itself or the second login first read an empty list |
| `LoginGate.CompletedBetweenRegistrations` | internal/service/auth_account.go:199-243 | The same between two registrations in an app, which share the temporary user |
| `LoginGate.RecordsOpen` | internal/service/auth_account.go:328-332 | A gate opens for a user whose last listed row for every required plugin says completed |
| `LoginGate.OnlyCompletedIsRecorded` | internal/service/verification_plugin.go:142-150 | In whatever order rows are listed, a plugin with rows that are all completed counts as completed at the gate |
| `LoginExamples.LoginsHappen` | internal/service/auth_account.go:262-358 | A user who completes a required plugin before each of two logins gets in both times, so the theorem on two logins has runs to speak of |
| `LoginExamples.RegistrationsHappen` | internal/service/auth_account.go:180-259 | The same of two registrations |
| `LoginGate.InheritedVerdict` | internal/service/verification_session.go:50-73 | Where rows are listed as inserted, a plugin counts as completed at the gate exactly when its latest row says so or it has the fresh, most recent completion of all |
| `LoginExamples.InheritedOverFailure` | internal/service/verification_session.go:50-73 | A run in which that happens: the latest row says failed, and the login succeeds |
| `VerificationService.Service.CreateUserSession` | internal/service/verification_session.go:43-99 | The step of the run theorems for CreateSession: inherit, replace, create, stopping at the first failing call |
| `VerificationService.Service.CreateIdentifierSession` | internal/service/verification_session.go:102-127 | The step for a session by identifier, failing calls included |
| `VerificationService.Service.UpdateSessionUserID` | internal/service/verification_session.go:146-165 | Gives the session its user, or fails when it is missing or expired or a call fails |
| `VerificationService.Service.UpdatePluginStatus` | internal/service/verification_status.go:34-66 | Appends a status row of the user unless the save fails, then asks the plugin, whose failure is reported |
| `VerificationService.Service.UpdatePluginStatusBySession` | internal/service/verification_status.go:69-118 | Appends a status row of the session's user or identifier, or fails, then calls the plugin back |
| `VerificationService.Service.DeleteStatuses` | internal/service/verification_status.go:146-154 | Deletes plugin by plugin until a delete fails, leaving exactly the rows of other keys and of plugins not reached |
| `VerificationService.Service.ClearVerification` | internal/service/verification_status.go:121-167 | The step for clean-up, with what each failing call leaves behind |
| `VerificationService.Service.HandleVerification` | internal/service/auth_account.go:88-119 | The gate of the run theorems, which asks the plugin manager twice |
| `VerificationService.Service.LoginUser` | internal/service/auth_account.go:262-358 | The step for login, every refusal and failing call included; `LoginIssuesExactly` says whom it lets in; a failed clean-up does not fail it |
| `VerificationService.Service.RegisterUser` | internal/service/auth_account.go:180-259 | The step for registration, every refusal and failing call included; `RegisterIssuesExactly` says whom it lets in |
| `OneTimeStore.AcceptedOnceInTime` | internal/plugin/verification/link_manager.go:79-106 | In every run what is accepted was stored for that address, has not expired, is the newest stored there and was not accepted before |
| `OneTimeStore.AcceptedExactly` | internal/plugin/verification/link_manager.go:79-106 | In every run whose clock does not go back, a text is accepted exactly when it is the one stored last for the address, was not accepted since, is not past its lifetime and, if a link, holds a session id, whatever other texts were tried |
| `OneTimeStore.PayloadExactly` | internal/plugin/verification/link_manager.go:95-105 | A link holds a session id exactly when it has one dot; every code passes |
| `OneTimeStore.StoredBetweenAcceptances` | internal/plugin/verification/code_manager.go:66-86 | Two acceptances for one address have a new secret stored between them |
| `OneTimeStore.SessionRecovered` | internal/plugin/verification/link_manager.go:79-130 | A link just stored gives back its session id exactly when the id has no dot |
| `OneTimeStore.TokenHasNoDot` | internal/plugin/verification/link_manager.go:120-130 | The random part of a link has no dot, and its cut lies within the base64 text |
| `OneTimeStore.ValidExactly` | internal/plugin/verification/code_manager.go:89-97 | An address is valid exactly when some text would be accepted for it or its link has a malformed session id |
| `OneTimeStore.LinkManager.Generate` | internal/plugin/verification/link_manager.go:34-60 | Stores and returns the link for the drawn bytes |
| `OneTimeStore.LinkManager.Send` | internal/plugin/verification/link_manager.go:63-76 | The link is stored even if it cannot be delivered |
| `OneTimeStore.LinkManager.VerifyLink` | internal/plugin/verification/link_manager.go:79-106 | The step of the run theorems for links |
| `OneTimeStore.LinkManager.IsValid` | internal/plugin/verification/link_manager.go:109-117 | Says whether the address is valid |
| `OneTimeStore.CodeManager.Generate` | internal/plugin/verification/code_manager.go:30-37 | One digit per draw |
| `OneTimeStore.CodeManager.Send` | internal/plugin/verification/code_manager.go:40-63 | The code is stored only after it was delivered |
| `OneTimeStore.CodeManager.VerifyCode` | internal/plugin/verification/code_manager.go:66-86 | The step of the run theorems for codes |
| `OneTimeStore.CodeManager.IsValid` | internal/plugin/verification/code_manager.go:89-97 | Says whether the address is valid |
| `PluginBase.LoopsNest` | internal/plugin/types/base.go:219-291 | The calls of the forward and the reverse loop form the well-nested trace |
| `PluginTrace.HooksInOrder` | internal/plugin/types/base.go:219-291 | With the error handler left out, an execution calls Before in order; if Before k is the first to fail, then OnError on k down to 0 and nothing else; if none fails, OnExecute and OnComplete, then After on all in reverse order |
| `PluginTrace.ExecutionCalls` | internal/plugin/types/base.go:219-291 | Those calls, with the error handler called at once after each failing After, OnError or OnComplete if there is one, and after all of them for a failed OnExecute |
| `PluginTrace.ExecuteAnswers` | internal/plugin/types/base.go:219-291 | Execute succeeds exactly on a running plugin when no Before and no OnExecute fails, and touches only the record of calls |
| `PluginTrace.LifecycleAnswers` | internal/plugin/types/base.go:145-345 | Load, Start and Stop are refused out of turn, changing nothing; in turn they call their hook and move the plugin on, or leave it failed |
| `PluginTrace.UnloadAnswers` | internal/plugin/types/base.go:188-216 | Unload succeeds exactly from stopped and failed when OnUnload works; otherwise it leaves the plugin failed, or where it was without its configuration |
| `PluginBase.ExecutesInOrder` | internal/plugin/types/base.go:145-345 | An instance that is in order stays so in every run without an early unload |
| `PluginBase.InstanceInOrder` | internal/plugin/types/base.go:145-345 | In every run of a new instance without an early unload, OnExecute runs only after OnLoad and OnStart and before OnStop and OnUnload |
| `PluginBase.UnloadTooEarly` | internal/plugin/types/base.go:188-216 | An unload whose OnUnload succeeds on an initialized or running plugin clears the configuration, is refused, and allows an execution after OnUnload |
| `PluginBase.InOrderExactly` | internal/plugin/types/base.go:145-345 | After a step every continuation without an early unload executes in order if and only if the step is not one |
| `PluginBase.SmartPlugin.ChangeState` | internal/plugin/types/state.go:61-102 | Moves along an allowed transition, or changes nothing |
| `PluginBase.SmartPlugin.LoadConfig` | internal/plugin/types/base.go:145-185 | The step of the run theorems for Load |
| `PluginBase.SmartPlugin.StartPlugin` | internal/plugin/types/base.go:294-318 | The step for Start |
| `PluginBase.SmartPlugin.StopPlugin` | internal/plugin/types/base.go:321-345 | The step for Stop |
| `PluginBase.SmartPlugin.UnloadPlugin` | internal/plugin/types/base.go:188-216 | The step for Unload, configuration cleared even when it is refused |
| `PluginBase.SmartPlugin.ExecutePlugin` | internal/plugin/types/base.go:219-291 | For any middleware list the trace, error handler included, is well nested, whatever After, OnError or OnExecute return; `PluginTrace` gives the calls one by one |
| `PluginManager.MemoryRunsSaved` | internal/plugin/manager.go:274-427 | In every run of harmless events a plugin in memory runs its enabled row's configuration, and no instance executed outside its load and unload |
| `PluginManager.UninstallExactly` | internal/plugin/manager.go:244-271 | An uninstall keeps that exactly when the hooks that end the run, OnUninstall and the delete of the row work |
| `PluginManager.SaveExactly` | internal/plugin/manager.go:533-570 | Saving a configuration keeps it exactly when the hooks that end the old run work, whatever fails afterwards |
| `PluginManager.HarmlessExactly` | internal/plugin/manager.go:225-570 | Memory agrees with the table all along a run if and only if every event of it is harmless in that sense |
| `PluginManager.InstallsExactly` | internal/plugin/manager.go:225-331 | Installing succeeds exactly for a named plugin of a named app that is not in memory, if it can be made, installed, configured, started and saved; it then runs the configuration given, under an enabled row with it, and nothing else changes; a failure changes neither memory nor rows |
| `PluginManager.SavesExactly` | internal/plugin/manager.go:533-570 | Saving succeeds exactly when what is found can be stopped and unloaded and the new row saved and the plugin started anew; it then runs the configuration given |
| `PluginManager.UninstallsExactly` | internal/plugin/manager.go:244-271 | An uninstall succeeds exactly when something is found, its hooks work and the row is deleted; nothing is found under the key from then on |
| `PluginManager.ExecutesExactly` | internal/plugin/manager.go:430-442 | An execution succeeds exactly when a plugin is found and neither a Before nor its OnExecute fails |
| `PluginManager.MemoryIsTransparent` | internal/plugin/manager.go:377-427 | GetPlugin then answers as if memory were empty, when the saved configuration loads and starts |
| `PluginManager.FailedUninstallStrands` | internal/plugin/manager.go:244-271 | A failing OnUninstall leaves the plugin in memory stopped, and every execution is refused |
| `PluginManagerService.Service.LoadNew` | internal/plugin/manager.go:274-331 | The step of the run theorems for LoadPlugin |
| `PluginManagerService.Service.BootPlugin` | internal/plugin/manager.go:297-306 | Loads and starts a new instance |
| `PluginManagerService.Service.Install` | internal/plugin/manager.go:225-241 | The step for install |
| `PluginManagerService.Service.Get` | internal/plugin/manager.go:377-427 | The step for GetPlugin, starting a saved plugin when needed |
| `PluginManagerService.Service.UnloadLoaded` | internal/plugin/manager.go:334-374 | The step for UnloadPlugin |
| `PluginManagerService.Service.Uninstall` | internal/plugin/manager.go:244-271 | The step for uninstall |
| `PluginManagerService.Service.SaveConfig` | internal/plugin/manager.go:533-570 | The step for saving a configuration: stop, unload, save, start anew, each call failing on its own |
| `PluginManagerService.Service.EndRun` | internal/plugin/manager.go:535-551 | Stops and unloads the instance in place, and drops it, or leaves it as the failing hook left it |
| `PluginManagerService.Service.ExecuteOn` | internal/plugin/manager.go:430-442 | The step for execution through the manager |
| `DependencyWalk.ReachStep` | tools/codestat/main.go:763-792 | Reaching is going one step off the path, so one call and its recursive calls account for everything reachable |
| `DependencyWalk.MeasureDrops` | tools/codestat/main.go:783-784 | Every recursive call has less room left: the walk ends on every finite graph, cycles included |
| `DependencyWalk.SlicesSameGraph` | tools/codestat/main.go:773-774 | Sorting the slices leaves the graph as it was |
| `DependencyWalk.TreePrints` | tools/codestat/main.go:763-792 | A tree holds the simple paths from its root and no others, each perhaps closed by one package of its path, and never the circular mark |
| `DependencyWalk.TreeOnce` | tools/codestat/main.go:763-792 | Each such path has exactly one line when no slice lists a package twice |
| `DependencyWalk.ForestPrints` | tools/codestat/main.go:743-760 | No line of the whole graph carries the circular mark, and its packages are those reached |
| `DependencyWalk.Walk.PrintTree` | tools/codestat/main.go:763-792 | Prints exactly the tree, restores the path, and adds to visited exactly what is reachable off the path |
| `DependencyWalk.Walk.SortDeps` | tools/codestat/main.go:773-774 | Sorts the stored slice in place and changes no other |
| `DependencyWalk.Walk.PrintGraph` | tools/codestat/main.go:743-760 | Prints one tree for each package no earlier one reaches; visited ends as everything reachable |

## Left out

- HTTP handlers, routing, middleware of the web framework, CORS, WebSocket fan-out: plumbing around the services above.
- Profile, file, app, user, role, permission and super-admin records: existence checks and one write each.
- Redis, SQL and Mongo clients, SMTP, JWT, bcrypt and RSA key loading: unseen libraries, replaced by the idealisations above; the rounding of Redis deadlines to milliseconds is not modelled.
- Concurrency other than that of rule loads and edits: each service call is one step.
- GORM's column defaults and its saving of associations: an updated rule row is what was passed in.
- Edits of a rule that vanishes between the check and the write.
- Deletion of OAuth clients, and the contents of id tokens: only whether one could be made is modelled.
- The JSON round trip of a record's free-form details, lines longer than the scanner's buffer, and files written only in part.
- Two segments of one app opened within one second, which share a file name: segments are modelled, not paths.
- Statistics of the audit log; the entries of an index that lists files are the reader's input.
- `VerifyLogFile` accepts only names without separators; the theorem is about the records of a file, not about finding it.
- AuditTrail.OnlyTodaysFilesFound: takes the index of an app with records to be on disk, which a failing save of the index can prevent, because a query without an index finds nothing.
- Time zones: one calendar gives the day of an instant for writer and reader alike.
- Negative page sizes and offsets, on which the reader panics.
- `InitPlugins`, which lists the configurations of the app with the empty id only, and dependency injection into plugins.
- A context that is cancelled while a rule is being evaluated: a context is done or not for the whole evaluation.
- The bodies of the email and TOTP plugins and their exemptions: they are oracles behind the hooks.
- Verification sessions that are created at one instant: the events of a run of `LoginGate` have distinct instants.
- Aliasing between callers who hold one plugin instance while the manager stops or drops it.
- A failing query that makes a user no super administrator counts as the answer no.
- The session field `Status`, which is written once and never read.
- LoginGate.CompletedBetweenLogins: says nothing of a first login of a super administrator, because that one skips the gate and the clean-up.
