# Inbox Angel: proofs about its protocols and records

Inbox Angel is a Cloudflare Worker that monitors email authentication: it publishes DMARC records, walks a domain through a
staged rollout, holds access grants to customers' Cloudflare accounts, writes records into a zone of its own, and runs an
onboarding email sequence. This project models the parts of it that have to survive races, failures and arbitrary input,
and proves what they promise. Where the code keeps a promise only under a condition, the condition is proved to be exact
wherever a lemma says `<==>`, and a lemma shows a concrete run or input outside it.

Protocols are state machines whose events are single database statements, single calls to a provider, or the end of a
process; theorems about them hold for every sequence of events. Code that loops over rows or changes an object in place is
a method, or a class, proved against a function of the old state; the theorems are then about that function.

| files | what they model |
|---|---|
| `Leads`, `Sequence`, `SequenceSpacing`, `SequenceLifeBound`, `SequenceStops`, `SequenceRun` | the onboarding sequence: its table, overlapping runs, the day between two emails, stops, and one run as it is written |
| `GrantRefresh` | OAuth token refresh by several isolates under single-use refresh tokens |
| `Erasure`, `ErasureService` | what becomes of OAuth grants when workspaces are erased and revocations retried |
| `OAuthState` | signed, single-use OAuth states |
| `Base64`, `Envelope`, `Sealing`, `SealingWitness` | base64url, the list of encryption keys, sealed tokens across key rotation, and a platform that meets what sealing assumes |
| `HostedZone`, `HostedService`, `HostedContent` | hosted records: create with take-back, restartable delete, the record counter, and token rotation in the record text |
| `Tokens` | intake tokens, hosted ids and intake addresses |
| `Zones` | zone lookup with a memo and an allow-list |
| `Text`, `DmarcTags`, `Rollout`, `Readiness` | the DMARC tag syntax, the staged rollout, and records rebuilt from stored values |
| `Senders`, `AuthHeaders`, `HeaderLayout`, `Eviction`, `WorkerPool`, `Wrappers` | the sender inventory, streamed header reading and what it reads of messages laid out in lines, eviction of a domain tree, the bounded worker pool, and shared result types |

## Promises that hold only under a condition

* **A stop can be undone.** Recording that a lead replied or booked is meant to end its sequence (`src/funnel/enroll.ts:55`).
  The undo of an advance matches the row on id and step alone and sets it active (`packages/db/src/queries/funnel.ts:74`), so a
  stop is final exactly when no run is carrying the lead's latest step with the mail not yet accepted
  (`SequenceStops.StopIsFinalExactly`).
* **A day between two emails** needs runs that live less than the catch-up interval: exactly 82,800 seconds
  (`SequenceLifeBound.LifeBoundIsExact`), and exactly one second more if all runs have a booking link or none has
  (`SequenceLifeBound.LifeBoundOfOneKind`). The interval is between the clocks of the two runs.
* **A refused refresh can break a healthy connection**, exactly when all three polls of the refused isolate come before the
  winner's swap (`GrantRefresh.RefusedBreaksExactly`; `GrantRefresh.GivesUpExactly` drops the assumption that the row stays
  active and its token unexpired). The row is then left broken with the live token in it
  (`GrantRefresh.BrokenWithLiveTokenExactly`, `GrantRefresh.SlowWinnerLeavesBrokenRow`). A lost swap does not mean that the
  other writer's token is the valid one: a re-seal under a newer key also changes the envelope (`GrantRefresh.Harm`).
* **A revoked grant can keep its refresh token.** One accepted revocation of the two counts, so a grant whose access token was
  revoked and whose refresh token was refused is forgotten with the refresh token alive (`Erasure.ForgetsWithoutRefresh`,
  `Erasure.ForgottenForGood`).
* **A failed enable** takes back its records but also deletes a token or an MTA-STS row the domain had before; asking for
  MTA-STS over an existing MTA-STS row always fails and deletes that row (`HostedService.FailedEnableRestores`,
  `HostedService.EnableOverMtaSts`).
* **A chosen zone can be unreachable**: one that lies below an unchosen zone below a chosen one is always refused
  (`Zones.NestedChoiceIsRefused`).
* **The 60 seconds of slack of a used-marker** cover a verifier's lag behind the signer and the spread between overlapping
  callbacks together, and no more (`OAuthState.SlackIsExact`). Putting a new key first ends every flow in progress, though
  every envelope still opens (`OAuthState.RotationEndsFlows`), and so does giving the first key another id
  (`OAuthState.RenamingEndsFlows`).
* **Printed records** lose a trailing quote of the last kept tag (`Rollout.KeepsUnmanagedTags`), misread a first tag that
  starts with a quote (`HostedContent.RetargetChangesOnlyRua`), and stand for another step than the stored text when that
  text is no policy but starts with one (`Readiness.StoredAndRecordAgree`, `Readiness.StoredDisagrees`).
* **Purging a workspace** loses a grant exactly when the grant is not covered and no row of another workspace holds it
  (`Erasure.PurgeKeepsExactly`), which takes a connection added after the listing (`Erasure.PurgeMeetsNoRow`).
* **The chunks of a message** matter exactly when some prefix, from the 128 KiB cap to the end of the header block, shows other
  headers than the whole (`HeaderLayout.AllCutsAgreeExactly`); a header that stands only below the cap is such a case
  (`HeaderLayout.PastTheCapChunksMatter`, `HeaderLayout.CutsDisagree`).

## Model

| member | source | states |
|---|---|---|
| Leads.NextDueMeaning | src/funnel/sequence.ts:51-54 | a next due time is never before the step's own day nor sooner than the catch-up interval, and is one of the two |
| Leads.Schedule | src/funnel/copy.ts:19-19 | the five emails are due 1, 3, 6, 10 and 14 days after enrolment |
| Leads.Due | packages/db/src/queries/funnel.ts:56-57 | the due query, written out: active rows due by now, each once, the longest waiting first, at most the limit |
| Sequence.EnrolsExactly | packages/db/src/queries/funnel.ts:41-54 | an address that is there already is not enrolled again; a new one waits a day for its first email |
| Sequence.InvStep | src/funnel/sequence.ts:75-138 | every event of any number of overlapping runs keeps: open attempts at one step are unique, an open attempt's lead is past its step, and nothing is due before its day |
| Sequence.GiveBackInv | packages/db/src/queries/funnel.ts:73-75 | putting a step back from a snapshot, however old, leaves every other open attempt below its lead's step |
| Sequence.AtMostOnceNeverEarly | src/funnel/sequence.ts:3-6 | over every trace of runs, crashes, lost answers, refusals, stops and deletions no (lead, step) is accepted twice, and none is accepted before enrolment plus its day, on the run's clock or the real one |
| SequenceSpacing.StartSpacing | src/funnel/sequence.ts:75-75 | a batch read by a prompt run holds no lead whose last step a live run may still put back, but on the one second its day ends, and keeps the spacing invariant |
| SequenceSpacing.PromptRunsKeepADayApart | src/funnel/sequence.ts:18-20 | two accepted emails to one lead are at least 82,800 seconds apart on their runs' clocks, through restores and catch-up, if no run lives that long, or a second longer when all runs agree on the booking link |
| SequenceLifeBound.LifeBoundIsExact | src/funnel/sequence.ts:18-20 | emails stay a day apart on every trace whose runs live less than a bound if and only if the bound is at most 82,800 seconds |
| SequenceLifeBound.EmailsAnHourApart | src/funnel/sequence.ts:84-89 | one second more and a stale hold moves an email to an hour after the previous one |
| SequenceLifeBound.LifeBoundOfOneKind | src/funnel/sequence.ts:18-20 | over the traces whose runs all have a booking link, or all have none, the exact bound is 82,801 seconds |
| SequenceLifeBound.ASecondShort | src/funnel/sequence.ts:115-119 | beyond it, whatever the booking configuration, a step put back from dates long out of date brings two emails a second too close |
| SequenceStops.StopStops | src/funnel/enroll.ts:55-61 | a stop leaves the lead not active, with its reason and nothing due |
| SequenceStops.SettledStop | src/funnel/enroll.ts:55-61 | a lead stopped with nothing in flight stays stopped for ever and no run takes up a step of it again |
| SequenceStops.Revives | src/funnel/sequence.ts:115-119 | if a run carries the lead's latest step unaccepted, a refusal makes the stopped lead active again |
| SequenceStops.StopIsFinalExactly | packages/db/src/queries/funnel.ts:74-80 | a stop is final if and only if no run carries the lead's latest step with the mail not yet accepted |
| SequenceRun.LeadTable.Advance | packages/db/src/queries/funnel.ts:64-71 | compare-and-set: it wins exactly when the row is active, due and at that step, and then moves it on; otherwise nothing changes |
| SequenceRun.LeadTable.Restore | packages/db/src/queries/funnel.ts:74-75 | puts step, dates and status back exactly when the row is at the advanced step, whatever its status |
| SequenceRun.LeadTable.Release | packages/db/src/queries/funnel.ts:78-78 | moves only the due time |
| SequenceRun.LeadTable.SetStatus | packages/db/src/queries/funnel.ts:80-80 | sets the status and clears the due time |
| SequenceRun.LeadTable.Delete | packages/db/src/queries/funnel.ts:82-82 | removes exactly the rows of an address |
| SequenceRun.OneLead | src/funnel/sequence.ts:78-138 | one turn of the loop does to the table, and hands to the provider, what the turn function says, for every answer and every place of a fault |
| SequenceRun.RunOnboardingSequence | src/funnel/sequence.ts:60-141 | the loop leaves the table, the counts and the attempts that the fold over the due leads gives, and touches nothing when the sequence is not ready |
| SequenceRun.TurnedAlone | src/funnel/sequence.ts:78-138 | on a table nobody else writes, a turn changes the lead's own row alone, to its outcome; a refused mail leaves it exactly as it was |
| SequenceRun.RunEnds | src/funnel/sequence.ts:75-139 | every lead the run works on ends with its own outcome, every lead after a failure is as it was |
| SequenceRun.RunKeeps | src/funnel/sequence.ts:75-139 | rows outside the batch are untouched |
| SequenceRun.RunCounts | src/funnel/sequence.ts:75-139 | sent, held, stopped and failed each count exactly the leads worked on that ended so |
| SequenceRun.CountsAddUp | src/funnel/sequence.ts:48-48 | the four add up to the leads worked on; at most one failure, and without one the whole batch was worked on |
| SequenceRun.RunIsTrace | src/funnel/sequence.ts:75-139 | the loop is a trace of the interleaving machine that leaves the same table and exactly the loop's own attempts, each with its fate |
| SequenceRun.SentAreAccepted | src/funnel/sequence.ts:107-108 | what the run counts as sent are exactly its mails the provider accepted |
| SequenceRun.RunSendsOnce | src/funnel/sequence.ts:3-6 | started in any state of the machine, the loop has no step accepted that was accepted before, none twice, and none before its day |
| GrantRefresh.StartIsSafe | src/connections/service.ts:199-209 | a connection just stored is safe, for any number of isolates |
| GrantRefresh.SafeStep | src/connections/service.ts:419-461 | every event but four keeps the live refresh token stored, or in the hands of exactly one isolate whose swap still matches |
| GrantRefresh.HarmStep | src/connections/service.ts:400-405 | each of the four (holder ends, reply lost, re-seal under a winner, refresh from a replaced envelope) loses the grant |
| GrantRefresh.GrantSurvivesExactly | src/connections/service.ts:409-461 | over any interleaving of any number of isolates the grant is safe if and only if none of the four events took place |
| GrantRefresh.LostForever | src/connections/service.ts:434-448 | once lost, no refresh is ever redeemed again |
| GrantRefresh.WinnerSwaps | packages/db/src/queries/connections.ts:94-101 | in a safe state the isolate with the new pair always wins its swap, and the row then holds the live token |
| GrantRefresh.RefusedPolls | src/connections/service.ts:438-445 | with no winner outstanding, a refused isolate takes over the live pair if and only if the row is active and the pair has no expiry or one more than 60 seconds ahead; while the envelope it started from is still stored a winner is outstanding and it takes over nothing |
| GrantRefresh.NoneIsStuck | src/connections/service.ts:394-461 | whatever an isolate is doing, its next statement can be made, and where it leads |
| GrantRefresh.ResealStores | src/connections/service.ts:400-405 | a re-seal stores the same material under a new envelope if and only if the row still holds the one it read |
| GrantRefresh.TheRace | src/connections/service.ts:419-437 | of two isolates that start from one row the first to be heard gets the new pair, and the other is refused |
| GrantRefresh.GivesUpExactly | src/connections/service.ts:433-448 | over every harm-free run a refused isolate declares the connection broken if and only if three of its polls come before the winner's swap, or find the row not active or its pair within 60 seconds of its expiry |
| GrantRefresh.RefusedBreaksExactly | src/connections/service.ts:436-448 | with the row active and its pair more than 60 seconds from its expiry, it does if and only if all three polls come before the winner's swap, counted on the events alone |
| GrantRefresh.BreakWasGivenUp | src/connections/service.ts:446-447 | whoever is about to break the connection was refused earlier in the run and gave up since |
| GrantRefresh.BrokenWithLiveTokenExactly | src/connections/service.ts:446-460 | a harm-free run leaves the live token in a broken row if and only if some isolate broke the connection and no new pair is still to be stored |
| GrantRefresh.SlowWinnerLeavesBrokenRow | src/connections/service.ts:446-460 | a winner slower than the polls stores a live, unexpired token in a broken row |
| Erasure.StartIsAccounted | src/lifecycle/revoke.ts:26-26 | before any erasure every OAuth grant is accounted for by its row |
| Erasure.InvStep | src/lifecycle/revoke.ts:23-80 | every event keeps: a row about to be dropped is covered, a tombstone about to be forgotten was revoked or is old, abandonments are more than 30 days old |
| Erasure.AccountedStep | src/connections/service.ts:288-300 | no event makes an OAuth grant go missing, except a purge that meets a connection row |
| Erasure.NoGrantGoesMissing | src/lifecycle/revoke.ts:17-80 | through any interleaving of erasures and cron runs failing anywhere, every grant has an accepted revocation, its row, a tombstone, or was abandoned after 30 days |
| Erasure.PurgeMeetsNoRow | src/workspaces/routes.ts:67-82 | a purge is reached only once no connection row of the workspace is left, if none is added after the listing |
| Erasure.PurgeKeepsExactly | packages/db/src/queries/workspaces.ts:87-107 | after a purge a grant is accounted for if and only if it was covered or a row of another workspace holds it |
| Erasure.ConfirmedWithoutRefresh | src/connections/service.ts:507-509 | a revocation counts as done with the refresh token not revoked if and only if the access token's was confirmed and the refresh token's not accepted |
| Erasure.ForgetsWithoutRefresh | src/connections/service.ts:288-300 | an erasure with a confirmed revocation forgets the grant, and leaves its refresh token alive if and only if only the access token's revocation was accepted |
| Erasure.ForgottenForGood | src/lifecycle/revoke.ts:42-80 | what was forgotten stays as it is through every later run: no cron revokes it |
| Erasure.EraseRunsThrough | src/lifecycle/revoke.ts:23-39 | an erasure nothing disturbs runs through to its purge, whatever Cloudflare answers, with no row of the workspace left and every OAuth grant among its connections covered |
| Erasure.CronRunsThrough | src/lifecycle/revoke.ts:42-80 | a cron run nothing disturbs drops exactly the tombstones past 30 days and those whose revocation is confirmed |
| ErasureService.Platform.RevokeSealedGrant | src/connections/service.ts:502-513 | for every way its calls can turn out: reported as confirmed if and only if the envelope opens and one of the two revocations is confirmed; what Cloudflare has accepted of either token afterwards |
| ErasureService.Platform.Keep | packages/db/src/queries/global-lifecycle.ts:128-130 | unless the write fails a tombstone is there, new and with the grant |
| ErasureService.Platform.DisconnectKeepingFailedGrant | src/connections/service.ts:288-300 | ends well if and only if the statements it needs do, and then says whether the grant was confirmed, tombstoned, pasted or missing; a row leaves only with its grant covered, and no other row is touched |
| ErasureService.Platform.RevokeWorkspaceConnections | src/lifecycle/revoke.ts:23-39 | ends well if and only if the list is read and every connection can be dropped; then none is left and revoked, failed and pasted count exactly the confirmed grants, the others and the pasted tokens; if not, nothing uncovered is gone |
| ErasureService.Platform.EraseWorkspace | src/workspaces/routes.ts:50-86 | the workspace is purged if and only if all domains and all connections went and the purge took effect; a domain that fails stops it before any grant is touched |
| ErasureService.Platform.RetryOne | src/lifecycle/revoke.ts:53-77 | a tombstone goes by age alone after 30 days, otherwise if and only if a revocation is confirmed, and then only by a delete that takes effect |
| ErasureService.Platform.RetryRevocations | src/lifecycle/revoke.ts:42-80 | ends well if and only if the statements it needs do; then exactly the tombstones past 30 days and those whose revocation is confirmed are gone, and the three counts are those of these sets |
| OAuthState.VerifiesExactly | src/connections/oauth.ts:170-190 | a state verifies and gives its verifier back if and only if it is within its ten minutes, bound to the same workspace, user and nonce, signed with the current first key, that key is found under the id it had, and the verifier is not empty |
| OAuthState.VerifiedWasSigned | src/connections/oauth.ts:180-188 | whatever carries the tag of a signed state and verifies is that state, for this binding and unexpired, and gives the verifier it was signed with |
| OAuthState.RotationEndsFlows | src/connections/crypto.ts:168-175 | a rotation that still opens every envelope rejects every state signed before it |
| OAuthState.RenamingEndsFlows | src/connections/oauth.ts:187-188 | with the first key under another id the signature holds but the verifier no longer opens |
| OAuthState.Settings.DeleteExpired | packages/db/src/queries/settings.ts:44-46 | removes exactly the markers that are not after the clock |
| OAuthState.Settings.Claim | packages/db/src/queries/settings.ts:38-41 | insert if absent, true for the one caller that inserted |
| OAuthState.Settings.OauthCallback | src/connections/routes.ts:259-282 | an undisturbed callback passes exactly when the browser matches, the state verifies and no unexpired marker has its nonce |
| OAuthState.SlackIsExact | src/connections/routes.ts:276-282 | every state passes at most once, over all overlapping callbacks, if and only if clock lag and spread between callbacks stay within 60 seconds together |
| OAuthState.Replays | src/connections/routes.ts:278-282 | one second beyond, a run on which a state passes twice |
| Base64.RoundTrip | src/connections/crypto.ts:44-54 | every byte string survives base64url, padding stripped and rebuilt |
| Base64.UrlText | src/connections/crypto.ts:44-48 | its text has no dot, comma, colon or padding, and is empty only for no bytes |
| Base64.StandardReads | src/connections/crypto.ts:98-98 | padded standard base64, as keys are generated, reads back too |
| Base64.BlanksAreSkipped | src/connections/crypto.ts:50-54 | white space among the characters is not read |
| Envelope.ParseKeys | src/connections/crypto.ts:83-105 | the parser's loop, entry by entry, with every error |
| Envelope.BadIdExactly | src/connections/crypto.ts:95-97 | an entry is refused for its key id if and only if that is not 1 to 32 letters, digits, underscores or dashes |
| Envelope.ColonFirst | src/connections/crypto.ts:92-98 | an entry that starts with a colon is taken for a bare key, and is not base64 |
| Envelope.ParsedKeysAreOk | src/connections/crypto.ts:96-104 | parsed keys are not empty, 32 bytes each, with well-formed ids of which no two are the same |
| Envelope.RenderedKeysParse | src/connections/crypto.ts:83-105 | a secret written for any such list parses to that list in that order |
| Envelope.BareKeyIsK1 | src/connections/crypto.ts:92-96 | a lone key without an id is the key with id k1 |
| SealingWitness.IdealExists | src/connections/crypto.ts:3-13 | what sealing assumes of the cipher and of JSON can be met |
| Sealing.MalformedExactly | src/connections/crypto.ts:139-140 | an envelope is malformed if and only if it is not ia1 and three more texts, none empty, with dots between |
| Sealing.OpensUnderRetainedKey | src/connections/crypto.ts:129-161 | what was sealed opens under every list that keeps the sealing key under its id, unchanged but for an empty refresh token; without an access token it never opens |
| Sealing.SealedHolds | src/connections/crypto.ts:129-136 | an envelope just sealed holds its material under a key the list has |
| Sealing.CurrentExactly | src/connections/crypto.ts:124-127 | an envelope is current if and only if the first key has the id it was sealed with |
| Sealing.OpensForItsRowOnly | src/connections/crypto.ts:12-13 | it opens for no other row, and under no other key that took over the id |
| Sealing.SurvivesRotation | src/connections/crypto.ts:8-11 | through any sequence of key changes that keep the sealing key, and any uses that re-seal, the row opens to what was sealed |
| Sealing.RotationFreesOldKey | src/connections/crypto.ts:7-11 | after a new first key and one use the row opens under every list that has the new key, with or without the old one |
| Sealing.ResealKeeps | src/connections/crypto.ts:163-166 | re-sealing keeps the material and leaves the envelope under the current key |
| HostedZone.WriteAllKeeps | src/hosted/service.ts:159-169 | a run of writes keeps the books, touches no existing record and makes exactly the records asked for, in order |
| HostedZone.TakeBackKeeps | src/hosted/service.ts:186-188 | taking back keeps the books and touches nothing but what was created; it never drives the count below zero |
| HostedZone.WriteAllRuns | src/hosted/service.ts:159-177 | writing goes on exactly to the first call that does not work |
| HostedZone.TakeBackWorks | src/hosted/service.ts:186-188 | with working calls everything written is taken back and counted off |
| HostedZone.DeleteAllKeeps | src/hosted/service.ts:258-265 | deleting keeps the books and touches only the targets; when it succeeds none is left |
| HostedZone.DeleteAllSucceeds | src/hosted/records.ts:97-105 | with working calls, deleting succeeds if and only if every target that exists sits at its name |
| HostedService.EnableKeeps | src/hosted/service.ts:104-195 | enabling, whether it succeeds or fails, keeps the books and leaves every record that was there |
| HostedService.EnableAnswersExactly | src/hosted/service.ts:104-195 | enabling succeeds if and only if the domain is not hosted, the workspace is below its cap, the count leaves room for 3 (or 5) records below 3500, the calls that open the zone and write work, and MTA-STS is not asked for over an MTA-STS row; which refusal each other case gets |
| HostedService.RejectedLeavesNothing | src/hosted/service.ts:184-190 | with no answer lost and at most one call refused, one of the writes, a rejected enable leaves zone and count as they were |
| HostedService.EnabledPublishes | src/hosted/service.ts:166-183 | a successful enable leaves exactly the planned records at their names, the rows of all three tables that name them, the token it replaces, and a count raised by 3 or 5 |
| HostedService.FailedEnableRestores | src/hosted/service.ts:184-195 | a refused enable with nothing left behind restores zone, count and hosted rows; it restores everything if and only if the domain had no token and no MTA-STS row |
| HostedService.EnableOverMtaSts | src/hosted/service.ts:178-189 | with MTA-STS asked for over an existing MTA-STS row, enabling never succeeds, and if it gets as far as the rows (it ends as rejected) the row is gone |
| HostedService.DisableKeeps | src/hosted/service.ts:241-268 | disabling keeps the books; it ends well exactly when the domain is forgotten and then none of its records is left; otherwise no row has changed |
| HostedService.RemoveMtaStsKeeps | src/hosted/service.ts:319-336 | removing MTA-STS touches only its two records and the rows that name them |
| HostedService.CounterFollowsZone | packages/db/src/queries/global.ts:125-127 | over any run of enables, disables and removals failing anywhere, counter less real records changes only by creations and deletions nobody heard of and decrements of a 0; with every answer heard it is constant |
| HostedService.RowsStayOk | src/hosted/records.ts:118-131 | over any run, every row names its own records only, at its own names, and no two rows share one |
| HostedService.DisableCanFinish | src/hosted/service.ts:254-268 | after any number of half-done disables, one with working calls removes the domain and every record of it |
| HostedService.RemoveMtaStsCanFinish | src/hosted/service.ts:319-336 | so does a removal of MTA-STS, for its two records |
| HostedService.OthersUntouched | src/hosted/records.ts:10-11 | an operation on one domain, failing or not, leaves every other domain's rows and records alone |
| HostedService.Deployment.Write | src/hosted/service.ts:159-164 | one record created and counted, or neither |
| HostedService.Deployment.RemoveRecord | src/hosted/records.ts:97-131 | a record is read first, refused at another name, and gone is not an error |
| HostedService.Deployment.WriteRecords | src/hosted/service.ts:166-177 | the writes, up to the first that fails |
| HostedService.Deployment.TakeBackAll | src/hosted/service.ts:186-188 | the take-back loop, decrementing for every removal that is not refused |
| HostedService.Deployment.DeleteTargets | src/hosted/service.ts:258-265 | the delete loop, decrementing only for what was deleted |
| HostedService.Deployment.EnableHosted | src/hosted/service.ts:104-195 | the whole enable: rows first, records, take-back |
| HostedService.Deployment.DisableHosted | src/hosted/service.ts:241-268 | the whole disable |
| HostedService.Deployment.RemoveHostedMtaSts | src/hosted/service.ts:319-336 | the whole MTA-STS removal |
| HostedContent.RetargetChangesOnlyRua | src/hosted/records.ts:60-66 | read back, rua= says the new address and every other tag what it said, unless the first part kept names a tag that starts with a quote: then if and only if later parts make up for the tag lost and for the one gained |
| HostedContent.RotationRebuilds | src/hosted/service.ts:226-228 | rotating the token of a hosted record gives the record built with the new token |
| Tokens.WrapIsHarmless | src/hosted/tokens.ts:17-20 | the wrap at 32 bits never reaches the five bits taken |
| Tokens.GenerateToken | src/hosted/tokens.ts:11-25 | the loop outputs the 32 base-32 digits of the 160-bit big-endian number of the bytes, with no bit left over |
| Tokens.TokensAreDistinct | src/hosted/tokens.ts:11-29 | every token is well shaped, and different bytes give different tokens |
| Tokens.EveryShapeIsAToken | src/hosted/tokens.ts:27-29 | every well-shaped string is the token of some 20 bytes |
| Tokens.HostedIdIsTenBytes | src/hosted/tokens.ts:36-39 | two hosted ids are equal if and only if the first ten bytes are |
| Tokens.CaseDoesNotMatter | src/hosted/tokens.ts:55-62 | an address parses the same in any case |
| Tokens.ReadsExactly | src/hosted/tokens.ts:55-62 | an address reads if and only if something stands on both sides of its last at-sign; base and tag are cut at the first plus |
| Tokens.IntakeRoundTrip | src/hosted/tokens.ts:43-62 | an intake address, in whatever case it returns, names its kind, token and host |
| Zones.ZoneCandidates | src/tenancy/cf-client.ts:166-171 | the loop lists the suffixes of at least two labels, longest first |
| Zones.LabelsOfName | src/tenancy/cf-client.ts:167-167 | the labels joined are the domain's own text in lower case, without a dot at either end and no dot doubled |
| Zones.NameOfProper | src/tenancy/cf-client.ts:167-167 | for a name of non-empty labels, in any case and with or without a final dot, that text is the name in lower case |
| Zones.FirstCandidate | src/tenancy/cf-client.ts:168-169 | the first candidate is that text if it has two labels; otherwise there is none |
| Zones.ScopeIsUpwardClosed | src/connections/service.ts:534-536 | a name below one in scope is in scope, so the search skips only a tail |
| Zones.PlainIsMostSpecific | src/tenancy/cf-client.ts:159-165 | the plain search finds a zone if and only if the domain's text lies in it and it lies within every other zone of the account the text lies in |
| Zones.RestrictedRefinesPlain | src/tenancy/cf-client.ts:313-330 | the restricted search returns a zone if and only if the plain one does, the zone is allowed and in scope, and the domain is in no blocked zone |
| Zones.RestrictedRefuses | src/tenancy/cf-client.ts:313-330 | for every domain, which refusal it gets, each if and only if, on the domain's text |
| Zones.ChoiceTakenExactly | src/connections/service.ts:312-317 | a choice is saved if and only if every id is 32 hexadecimal digits and that of a visible zone; which error otherwise |
| Zones.ChoiceMakesPolicy | src/connections/service.ts:312-328 | saving a choice of visible zones and opening a client gives the policy of that choice |
| Zones.ChoiceServes | src/connections/service.ts:529-586 | right after a choice a domain is served if and only if its zone was chosen and it lies in no unchosen zone below a chosen one |
| Zones.NestedChoiceIsRefused | src/connections/service.ts:576-580 | a chosen zone below an unchosen one below a chosen one is refused |
| Zones.CfClient.SeedZone | src/tenancy/cf-client.ts:296-299 | a seed that is the account's keeps the memo true |
| Zones.CfClient.LookupZone | src/tenancy/cf-client.ts:321-335 | the account's answer, from memory or asked for; only a name that is not remembered and whose request fails is not answered, and that is not remembered |
| Zones.CfClient.ZoneFor | src/tenancy/cf-client.ts:302-319 | with its memo the client answers as the search does, unless the search comes to a name whose request fails and that it does not remember |
| DmarcTags.ParseDmarcTags | src/dmarc/rollout.ts:34-43 | the map holds exactly the named tags, each with its first value |
| DmarcTags.TrimKeepsTag | src/dmarc/rollout.ts:194-196 | trimming a part changes neither its tag nor its value |
| DmarcTags.LookupKept | src/dmarc/rollout.ts:193-196 | filtering loses exactly the managed tags |
| DmarcTags.Reparse | src/dmarc/rollout.ts:198-198 | parsing joined parts gives every tag the value of its first part, the last one less a trailing quote |
| Rollout.StepIndexMeaning | src/dmarc/rollout.ts:58-66 | a recognised policy stands at a step that publishes it, at a testing one only for t=y or pct=0 |
| Rollout.PlanIsEarliest | src/dmarc/rollout.ts:148-174 | the planned step is the earliest one that does not weaken, or drops a partial pct; the flags say which |
| Rollout.FirstStep | src/dmarc/rollout.ts:148-149 | without a record the rollout starts with quarantine in testing |
| Rollout.NoPlanMeaning | src/dmarc/rollout.ts:148-162 | there is no next step exactly for an unrecognised policy or at full enforcement |
| Rollout.RefusesExactlyWeakening | src/dmarc/rollout.ts:122-127 | the builder refuses if and only if a testing step would be applied weaker than what is published on some surface |
| Rollout.RefusesOnTags | src/dmarc/rollout.ts:122-127 | the same on the tags: refused if and only if, under t=y, some surface would be applied weaker than the first of its tags that reads as a policy |
| Rollout.StepRecordTags | src/dmarc/rollout.ts:190-198 | every tag of a printed record, read back |
| Rollout.PrintedPublishes | src/dmarc/rollout.ts:187-191 | a printed record publishes the step's policy, never less than before on sp and np, and no pct |
| Rollout.PrintedRanks | src/dmarc/rollout.ts:107-114 | read as text, a printed record's p= is the step's policy, its sp= and np= the stricter of it and the first of sp=, p= (np=, sp=, p=) that reads as a policy, none if no tag does |
| Rollout.PrintedStands | src/dmarc/rollout.ts:69-73 | printing a step and reading where it stands gives that step |
| Rollout.NeverWeakens | src/dmarc/rollout.ts:148-199 | for every record a planned step is always built, and what receivers then apply is at least what was published on p, sp and np |
| Rollout.TagsNeverWeaken | src/dmarc/rollout.ts:148-199 | for every record the planned step is built, and on p, sp and np nothing its tags say, inheritance included, is applied weaker; under t=y every printed policy is one step above |
| Rollout.KeepsUnmanagedTags | src/dmarc/rollout.ts:176-198 | every other tag keeps its first value if and only if the last kept part does not lose a quote |
| Rollout.AdvanceProgress | src/dmarc/rollout.ts:148-199 | every application brings the end closer, and the last one enforces on every surface |
| Rollout.Converges | src/dmarc/rollout.ts:148-199 | from any record the rollout ends within four applications, with p=, sp= and np= reading reject and no t and no pct if any was applied |
| Rollout.NeverWeakensAlong | src/dmarc/rollout.ts:148-199 | nothing published at the start is ever applied weaker along the whole rollout |
| Rollout.TagsNeverWeakenAlong | src/dmarc/rollout.ts:148-199 | the same along the whole rollout, against the tags of the record it started from |
| Rollout.StoredRoundTrip | src/dmarc/rollout.ts:80-87 | storing a step, with 0 for testing and 100 for enforced, and reading it back gives the step |
| Rollout.StoredIsStep | src/dmarc/rollout.ts:84-87 | reading what is stored gives no step if and only if there is none, or its text is no policy |
| Readiness.SuffixTags | src/analytics/readiness.ts:64-67 | the printed record is testing exactly for pct 0 and carries exactly a partial pct |
| Readiness.StoredAndRecordAgree | src/analytics/readiness.ts:72-77 | record and stored values stand at the same step if and only if the text is a policy or what the parser cuts out of it is none either |
| Readiness.PlainStoredAgrees | src/analytics/readiness.ts:72-77 | they always agree for text without a semicolon or a double quote |
| Readiness.StoredDisagrees | src/analytics/readiness.ts:61-69 | a stored text on which they do not |
| Senders.AlignedExactly | src/analytics/senders.ts:55-60 | two names are aligned, when strict, if and only if they are the same, and when relaxed if and only if they have one organizational domain; an absent or empty name never is |
| Senders.StrictIgnores | src/analytics/senders.ts:55-57 | strict alignment takes no notice of case or a final dot |
| Senders.RecordCounts | src/analytics/senders.ts:63-69 | what a record counts for: each mechanism that passed and is aligned with the From domain, or the report's own without one |
| Senders.TotalIsSane | src/analytics/senders.ts:102-105 | passes are at least SPF and DKIM each, at most their sum, and at most the messages |
| Senders.OrderDoesNotMatter | src/analytics/senders.ts:98-111 | counts depend on the rows, not on their order |
| Senders.Conserved | src/analytics/senders.ts:80-111 | the per-source counts add up to those of all rows |
| Senders.SortKeeps | src/analytics/senders.ts:147-147 | sorting keeps every sender and orders by messages, then address |
| Senders.RollUp | src/analytics/senders.ts:97-111 | one accumulator per source, with exactly the counts, first and last dates of its rows |
| Senders.BuildSenders | src/analytics/senders.ts:80-148 | every source once, described by exactly its rows, new if first seen within a week of a longer history, most messages first and then by address, conserving all counts |
| Senders.GroupSenders | src/analytics/fixes.ts:67-81 | every key that occurs has one group, with exactly its senders and their sums |
| Senders.GroupedExactly | src/analytics/fixes.ts:70-70 | two senders are in one group if and only if one provider was recognised for both, or for neither and they are one address |
| Senders.GroupsConserve | src/analytics/fixes.ts:67-81 | grouping conserves the counts |
| AuthHeaders.ReadAuthHeaders | src/email/sender-proof.ts:30-61 | the read loop and the line loop: the headers of what was read, or none exactly when a read that is made fails |
| AuthHeaders.ChunksDoNotMatter | src/email/sender-proof.ts:37-46 | for every way to cut a message into chunks the result is that of the whole message, if the header block or the message ends within the cap |
| AuthHeaders.HeaderLineValue | src/email/sender-proof.ts:55-58 | the value of a header line, and when it has none |
| HeaderLayout.SplitsIntoLogical | src/email/sender-proof.ts:49-50 | unfolding and splitting gives back the lines a text was laid out in, continuations joined with one space, whatever follows |
| HeaderLayout.EveryMessageIsLaidOut | src/email/sender-proof.ts:46-50 | every message is such lines, up to its blank line or its last line end |
| HeaderLayout.TopmostHeaderWins | src/email/sender-proof.ts:8-12 | for any lines, folded or not and ended by CRLF or LF: the topmost header of a kind, if its line ends within the cap, is what is read, unfolded, whatever stands above it or follows and however the message is cut |
| HeaderLayout.AllCutsAgreeExactly | src/email/sender-proof.ts:37-46 | every way to cut a message gives the same headers if and only if every prefix from the cap to the end of the header block shows the headers of the whole |
| HeaderLayout.PastTheCapChunksMatter | src/email/sender-proof.ts:20-46 | a header that stands only below lines as long as the cap is found in one chunk and missed in two |
| HeaderLayout.CutsDisagree | src/email/sender-proof.ts:20-20 | a concrete message on which the cuts disagree |
| Eviction.WalkIsTheTree | src/domains/ownership.ts:124-131 | the walk lists the domain and everything below it at any depth, each once, every row after all its children |
| Eviction.EveryPrefixIsSafe | src/domains/ownership.ts:133-149 | wherever the detach loop stops, no live row is under a detached one |
| Eviction.Domains.Detach | packages/db/src/queries/claims.ts:67-71 | one row detached in two statements, for every way each can turn out: renamed, hidden, no longer default, alerting or connected, its parent still recorded; then its intake tokens gone |
| Eviction.Domains.Collect | src/domains/ownership.ts:126-131 | the recursive walk collects the post-order list |
| Eviction.NamesFreed | packages/db/src/queries/claims.ts:69-69 | no row holds the name of a detached domain any more, and names stay unique |
| Eviction.Domains.DetachTree | src/domains/ownership.ts:133-149 | the detach loop, as far as its statements go |
| Eviction.Domains.EvictLegacyHolder | src/domains/ownership.ts:117-149 | ends well if and only if every statement of the tree does, and then exactly the tree is detached, with its intake tokens gone; nothing outside it, and no other workspace's row, ever; never a live row under a detached one, nor a token gone but of a detached domain |
| WorkerPool.InvStep | src/cron.ts:26-30 | every step keeps: items handed out in order, none twice, none both running and finished |
| WorkerPool.EachItemOnce | src/cron.ts:26-30 | each item once, at most min(limit, n) calls in flight; at completion all are finished if and only if the limit is at least 1 or there are no items |
| WorkerPool.PoolProgresses | src/cron.ts:26-30 | until all workers have returned some step can happen, and every step brings the end closer |
| WorkerPool.PoolEnds | src/cron.ts:26-30 | no run is longer than three steps per item and one per worker |
| WorkerPool.PoolCanFinish | src/cron.ts:26-30 | whatever has happened so far, the pool can go on until all workers have returned |
| WorkerPool.BoundIsReached | src/cron.ts:26-30 | the bound on calls in flight is reached, min(limit, n) |

## Left out

- SequenceSpacing.PromptRunsKeepADayApart: states the spacing for runs up to a bound on their life, because it is false beyond it; `SequenceLifeBound` proves both bounds exact.
- AuthHeaders.ChunksDoNotMatter: states the result for header blocks that end within the cap only, because beyond it the result can depend on the chunks; `HeaderLayout.AllCutsAgreeExactly` says when.
- ErasureService.Platform.RetryRevocations: takes any batch of tombstones, not the first hundred by age, and leaves out the attempt counter and the audit entry of an abandoned one, which decide nothing.
- GrantRefresh.RefusedBreaksExactly: assumes that the row is active and its token unexpired whenever the isolate finds another envelope; `GrantRefresh.GivesUpExactly` does not.
- Sealing.SurvivesRotation: takes material as token objects hold it, with no empty refresh token; `Sealing.OpensUnderRetainedKey` covers raw material.
- GrantRefresh.GrantSurvivesExactly: does not model reconnecting or disconnecting while a refresh runs, nor a server that returns no new refresh token; one connection is modelled, and an isolate's maps of opened tokens, refreshes and clients are its phase, on values.
- Suppression and membership lookups of the sequence are answers the run is given; the wording, the links and the provider's own idempotency keys are not modelled.
- The due query, the list of connections and the subdomains query are modelled by what they answer; SQL itself is not.
- Erasure does not cover a user's own disconnect, which drops the row either way, nor a refresh that replaces a grant's token while it is being revoked; deleting the domains and the orphaned users is one call each.
- AES-GCM, HMAC, HKDF, SHA-256 and random bytes are ideal; JSON with UTF-8 is a pair of functions that undo each other; base64 is computed on bytes, without the intermediate binary string.
- Cookies, redirects, labels and the code exchange of an OAuth callback.
- Hosted records: one zone (the code has a seam for more), SPF flattening, MX discovery, the pointers a customer publishes, the check of record names against the configured apex, updates of an MTA-STS policy, and the states between the two record writes of a token rotation. Concurrent operations on one domain are not interleaved; a database statement does not fail.
- Zones: requests other than the lookup of a zone, the operation allow-list, the write policy, paging, and concurrent callers sharing one lookup in flight. The account does not change while a client lives.
- Lower-casing is that of ASCII letters. Of other letters only the Kelvin sign becomes an ASCII letter, and no managed tag or policy has a k.
- The notes shown with a plan, pass-rate gates and the reasons of the readiness assessment.
- Senders: percentages, providers' names and labels, the most frequent SPF and DKIM domains, reverse DNS and country. The organizational domain, the provider of an address and the collation of addresses are parameters.
- AuthHeaders: what the values prove (parsing of authentication results) and the choice between the two kinds of header.
- Eviction: cleanup of hosted and authorisation records, audit entries and mail. One clock reading stands for that of every row. A subdomain added between the walk and the detach is not modelled. That parents form no cycle is assumed.
- WorkerPool: a callback that throws.
- HTTP routing, pages, telemetry, DNS over HTTPS, report parsing and the setup scripts.
