# Verification of the Web3 ID example services

This project models the stateful parts of the Web3 ID repository in Dafny and
proves what they are for.

- **The verification store** (`VerificationTables`, `VerificationStore`,
  `Database`). Three relational tables with their keys, UNIQUE columns, foreign
  keys and cascades; the add, remove and get transactions run statement by
  statement with rollback; and the simple store they implement, a set of
  entries. The serial column is a sequence, so a rolled back add still uses up
  an id.
- **The verifier's handlers** (`EntryFold`, `Verifier`). The fold from a list of
  credential proofs to the entry that is stored, and what holds of the store
  after any sequence of requests.
- **The issuers** (`RateLimiter`, `IssuerProtocol`, `IssuerSafety`,
  `IssuerWorker`). The sliding-window limiter; a step system of cancellable
  clients, a bounded channel, one worker and a chain that may lose
  acknowledgements and accept late; and the two workers as loops that take the
  steps of that system while requests arrive. `Variant` tells the rate-limited
  Telegram and Discord issuers from the plain issuer.
- **The shutdown broadcast** (`Shutdown`), in every interleaving.
- **Two smaller algorithms**: the wallet index searches (`WalletIndex`) and the
  Telegram data-check-string (`DataCheckString`), which follows the section
  "Checking authorization" of the Telegram Login Widget documentation, with what
  the string determines of its user (`SharedStrings`).

`Wrappers` and `Collections` hold options, results and witnesses for set members.
Methods are proved against functions of the state before the call; the laws are
then lemmas about those functions.

Assumptions. A transaction is accepted by the chain only under the account's
next nonce, at any time after it was sent, and the worker is the only one that
uses the account. In the loops of `IssuerWorker` a late acceptance shows at the
next call, which is when it first matters to the worker. The outcomes of calls,
signature checks, time checks and the making of secrets are inputs. A
presentation survives its JSON encoding. Strings that are stored do not contain
U+0000, which PostgreSQL refuses in VARCHAR and JSONB. Database transactions run
one after the other.

Where code and comments differ, the model follows the code:

- The guard `!proofs.len() == 2` complements the bits of the length, which no
  vector can make equal to 2, so names may be revealed more than once and the
  last one counts. `EntryFold.NameCountUnchecked` says for which lists that
  differs from the check in the comment, `EntryFold.RepeatedNamesAreAccepted`
  is an example.
- A comment in `spawn_cancel` says one receiver is alive until the end of `main`.
  The main receiver is dropped when the main task is told to stop, so a later
  announcement can fail, exactly when the metrics server is configured
  (`Shutdown.SendFailsIffMetrics`), but never before the main task was told
  (`Shutdown.FailedSendIsHarmless`).
- A comment in `start_services` of the plain issuer says that a service that
  crashes sends a message. One that panics does not, and if all do the main task
  waits for ever (`Shutdown.HangsIffAllPanicked`).
- A comment in `remove_verification` derives "at most one row" from the
  uniqueness of `verification_id`, which does not give it
  (`VerificationTables.UniqueReferencesDoNotSuffice`); the uniqueness of `cred_id`
  does (`VerificationTables.AtMostOneSelected`).
- The limiter keeps a stronger bound than its window: a block of one more than
  the window is still limited, and that is exact (`IssuerSafety.RateLimitIsExact`).

## Model

| member | source | states |
|---|---|---|
| Database.Database.AddVerification | examples/some-verifier/src/db.rs:232-305 | from any state the transactions reach, add never fails with a database error; it is refused iff an entry that shares no credential has one of its user ids, and then reports that id, Telegram first, and leaves every table as it was; otherwise it yields the store with all overlapping entries gone and the new one in, every other row keeping its id and contents; the tables are those of `AddOutcome`, the statements one after the other |
| Database.Database.DeleteOverlapping | examples/some-verifier/src/db.rs:236-260 | the delete loop over both platforms removes exactly the entries that share a credential with the new one |
| Database.Database.FillSlot | examples/some-verifier/src/db.rs:276-301 | after the deletions a platform insert can only be refused for its user id, never for `cred_id`, `verification_id` or the foreign key |
| Database.Database.AddPlatformEntry | examples/some-verifier/src/db.rs:332-356 | one insert: a primary key conflict returns the user id and does nothing, any other violated constraint is an error |
| Database.Database.RemoveVerification | examples/some-verifier/src/db.rs:308-327 | reports whether a row of the platform has the credential; the verification that it refers to goes with the rows that refer to it on both platforms, and nothing else does |
| Database.Database.GetVerification | examples/some-verifier/src/db.rs:138-227 | nothing iff the user id has no row on the platform, and otherwise exactly the accounts of all rows with the same reference, each once and the one asked for first, and the name and presentation columns of the verification; no NULL or row-count error can occur |
| Database.Database.Replay | examples/some-verifier/src/db.rs:138-327 | any sequence of add, remove and get transactions succeeds, each with the reply of the set of entries that the ones before it left |
| Database.HoldersOf | examples/some-verifier/src/db.rs:316-324 | the verifications a removal deletes are the entry with the credential, or none |
| VerificationTables.AtMostOneSelected | examples/some-verifier/src/db.rs:322-324 | the select of a removal finds at most one id on any table in which credentials are unique |
| VerificationTables.UniqueReferencesDoNotSuffice | examples/some-verifier/src/db.rs:323 | unique references alone, as the comment has it, do not give that: for every credential a table with them finds two ids |
| VerificationTables.DeleteRefines | examples/some-verifier/src/db.rs:242-256 | deleting verifications with their cascades deletes whole entries, changes no other, and keeps every constraint |
| VerificationTables.InsertVerificationRefines | examples/some-verifier/src/db.rs:262-274 | inserting a verification row adds one entry without accounts and keeps every constraint |
| VerificationTables.InsertPlatformRefines | examples/some-verifier/src/db.rs:34-41 | an insert for an empty slot under a credential nobody holds does nothing iff its user id is taken, and otherwise fills the slot |
| VerificationTables.AddViolatedIffNullHolder | examples/some-verifier/resources/schema.sql:9-21 | on any tables the schema admits and for any entry with one or two accounts, the statements of an add fail with a constraint error iff the Telegram id is free after the deletes and the Telegram credential is held by a row with a NULL reference, or both ids are free and the Discord credential is so held; and they report a taken id in exactly the cases given |
| VerificationTables.ViewIsKeyed | examples/some-verifier/resources/schema.sql:9-21 | the constraints make user ids and credentials belong to at most one verification on each platform |
| VerificationStore.ClashIffForeignHolder | examples/some-verifier/src/db.rs:229-302 | add is refused iff an entry that shares no credential with the new one has one of its user ids, and then changes nothing |
| VerificationStore.ClashIsFirstForeign | examples/some-verifier/src/db.rs:276-301 | a refused add reports the Telegram user id if that has a foreign holder, and otherwise the Discord user id |
| VerificationStore.LookupAfterAdd | examples/some-verifier/src/db.rs:138-305 | every lookup after a successful add: the new entry for its accounts, nothing for accounts of dropped entries, as before otherwise |
| VerificationStore.PutGet | examples/some-verifier/src/db.rs:138-305 | after a successful add the lookup by any account of the entry gives that account first, every account of the entry once and no other, its name and its presentation |
| VerificationStore.LookupAfterRemove | examples/some-verifier/src/db.rs:138-327 | after a removal all accounts of the removed entry are unfindable and every other lookup is as before |
| VerificationStore.ReAdd | examples/some-verifier/src/db.rs:232-305 | adding an entry again never clashes and changes nothing |
| VerificationStore.RemoveTakesAtMostOne | examples/some-verifier/src/db.rs:307-327 | a removal takes away at most one entry and none if it reports none |
| VerificationStore.LookupSymmetry | examples/some-verifier/src/db.rs:152-226 | looking up any account of an answer gives the same accounts, name and presentation, with that account first |
| VerificationStore.ReachableIsKeyed | examples/some-verifier/src/db.rs:138-327 | after any transactions no two entries share a user id or a credential on a platform |
| VerificationStore.StoredIffSurvives | examples/some-verifier/src/db.rs:232-327 | after any transactions an entry is stored iff some add stored it without a clash and no later removal or overlapping add displaced it |
| VerificationStore.LookupByHistory | examples/some-verifier/src/db.rs:138-327 | a lookup answers iff the history has a surviving entry with the account, and with exactly its accounts, name and presentation |
| EntryFold.ProofToVerificationsEntry | examples/some-verifier/src/main.rs:481-585 | a credential of a registry with exactly two revealed texts fills the free slot of that registry's platform with the first as user id, the second as user name, and its holder; an account credential fills the free name slot with the texts at the last revelations of tag 0 and tag 1; every other case gives the error of the branch that fails |
| EntryFold.LatestIsLast | examples/some-verifier/src/main.rs:541-564 | of the values revealed for a tag the last one counts |
| EntryFold.NameCountUnchecked | examples/some-verifier/src/main.rs:536-570 | for every vector of proofs: the guard on their number does not fire; a list of another length than two is accepted iff it has more than two elements, all are names, and both names are among them; and the code agrees with a check for exactly two iff the list is not of that kind |
| EntryFold.RepeatedNamesAreAccepted | examples/some-verifier/src/main.rs:536-570 | one such list, in which the second of two first names counts |
| EntryFold.FoldCharacterised | examples/some-verifier/src/main.rs:404-407 | the fold succeeds iff every credential is acceptable and no two fill one slot, and its entry holds exactly what the credentials contribute |
| EntryFold.FoldDirectly | examples/some-verifier/src/main.rs:404-407 | the fold succeeds iff every credential is acceptable and no two are of one kind, and otherwise gives the error of the first that is not |
| EntryFold.EntryDescribes | examples/some-verifier/src/main.rs:399-407 | the entry of an accepted presentation holds exactly the accounts and the name that its credentials reveal, with the presentation itself |
| EntryFold.FoldIsOrderFree | examples/some-verifier/src/main.rs:399-407 | a permutation of the credentials is accepted iff the original is, with the same accounts and name |
| EntryFold.AcceptedHasAccount | examples/some-verifier/src/main.rs:399-409 | an accepted request has two or three credentials and at least one account |
| EntryFold.StatusTargetIsStored | examples/some-verifier/src/main.rs:733-752 | the first credential of a platform's registry in the presentation is the one stored with the account |
| Verifier.AppState.HandleAdd | examples/some-verifier/src/main.rs:389-422 | created and stored iff the presentation is verified, has two or more credentials, each acceptable and no two of one kind, and no user id has a foreign holder; what is stored is what the presentation reveals, in place of the entries it shares a credential with; every other case leaves the store and gives its own error |
| Verifier.AppState.HandleRemove | examples/some-verifier/src/main.rs:425-470 | refused with its own error unless verified with exactly one statement, about a credential of a known registry; then the entry with the credential goes, with Ok iff there was one and a bad request otherwise |
| Verifier.AppState.Handle | examples/some-verifier/src/main.rs:389-470 | each of any requests to a fresh verifier is handled so in the store that the ones before it left, and at the end every verification row has a platform row and the reverse |
| Verifier.ReachableStore | examples/some-verifier/src/main.rs:389-470 | in every reachable store each entry is the fold of its own presentation, has an account, and shares no key with another |
| Verifier.StoredWasVerified | examples/some-verifier/src/main.rs:394-413 | every stored entry comes from an add request whose presentation was verified |
| Verifier.StoredIsRevealed | examples/some-verifier/src/main.rs:481-585 | user id, user name and credential of every stored account are the two texts and the holder of every credential of that registry in its presentation, and the stored name is the one revealed there |
| Verifier.LookupChecksStoredCredential | examples/some-verifier/src/main.rs:647-757 | for every account in the answer to a lookup, the status query asks for the credential stored with that account |
| RateLimiter.RateLimiter.CheckLimit | examples/some-issuer/src/lib.rs:43-46 | the map lookup passes iff the id occurs less than `multiplicity` times among the last max(1, max_queue_size) ids of the history |
| RateLimiter.RateLimiter.UpdateLimit | examples/some-issuer/src/lib.rs:48-63 | an update appends to the history and keeps the queue its window, newest first, and the map its nonzero counts; the decrement does not underflow |
| RateLimiter.UpdatedWindow | examples/some-issuer/src/lib.rs:52-62 | evicting from a full queue before pushing gives the window of the longer history, with a size of 0 acting as 1 |
| RateLimiter.TallyDecrement | examples/some-issuer/src/lib.rs:53-60 | the evicted id is in the map with a positive count, and decrementing or removing it restores the counts |
| RateLimiter.AdmittedIffSpaced | examples/some-issuer/src/lib.rs:42-64 | the limiter lets a history through iff no block of one more than the window repeats an id more than `multiplicity` times |
| IssuerSafety.NonceSafety | examples/some-issuer/src/lib.rs:279-297 | in every run, although the chain may accept a transaction whose call has failed at any later time, the chain is zero or one nonce ahead of the worker, accepted nonces are consecutive from the start value without repeats, and the acknowledged transactions are the first of the accepted ones |
| IssuerSafety.StuckForever | examples/some-issuer/src/lib.rs:153-163 | once an acknowledgement is lost nothing is accepted or acknowledged again, late acceptances included |
| IssuerSafety.RateLimitHolds | examples/some-issuer/src/lib.rs:274-296 | among the users registered on chain no block of one more than max(1, max_queue_size) has one more than `multiplicity` times, in every run, even where the last acknowledgement was lost, and the same holds of the acknowledged ones |
| IssuerSafety.RateLimitIsExact | examples/some-issuer/src/lib.rs:42-64 | a list of users is the acknowledged list of some run, and the accepted list of some run, iff it respects the rate limit |
| IssuerSafety.OneOutcomeEach | examples/some-issuer/src/lib.rs:506-532 | each client gets at most one result, one that cancelled gets none, and issued results belong to different acknowledged transactions, each for the client that got it and the user that client asked for |
| IssuerSafety.ResultsAreResponses | examples/some-issuer/src/lib.rs:519-531 | a result is the response that the worker sent to that client, or an internal error once the worker has stopped |
| IssuerSafety.QueueIsBounded | examples/some-issuer/src/lib.rs:519-523 | in every run the queue stays within the capacity of the channel |
| IssuerSafety.NoSilentDrop | examples/some-issuer/src/lib.rs:123-207 | while it runs the worker drops no request without a response |
| IssuerSafety.StoppedSettles | examples/some-issuer/src/lib.rs:519-531 | in every schedule after the worker has stopped, without new clients: each step by which a client ends takes exactly one from the unfinished ones, and the clients have no step left iff every one has cancelled or has its one result, which is after as many such steps as there were unfinished clients |
| IssuerSafety.SettlingIsPossible | examples/some-issuer/src/lib.rs:519-531 | from there every client that has not cancelled can get its one result by steps of the clients alone, with no further cancellation |
| IssuerSafety.ObserversDoNotInterfere | examples/some-issuer/src/lib.rs:108-112 | taking cancellations and receptions out of a run leaves a run with the same worker, limiter, chain and responses |
| IssuerSafety.CancellationIsInvisible | examples/some-issuer/CHANGELOG.md:20-23 | two runs that differ only in which queued clients cancelled end with equal nonce, limiter history, transactions and responses |
| IssuerWorker.Chain.Submit | examples/some-issuer/src/lib.rs:291-294 | the environment: a call under the next nonce may be accepted, with or without an answer, under any other nonce it is an invalid argument, and what is not accepted stays outstanding |
| IssuerWorker.Chain.Settle | examples/some-issuer/src/lib.rs:291-294 | the environment: an outstanding transaction under the next nonce may be accepted late |
| IssuerWorker.Receiver.Receive | examples/some-issuer/src/lib.rs:124-129 | the receiving end of the channel: first in first out, closed only after it is exhausted |
| IssuerWorker.RateLimitedWorker.RegisterCredential | examples/some-issuer/src/lib.rs:267-298 | refused iff the limit is reached, and then nothing changes; nonce and limiter advance only on acknowledgement |
| IssuerWorker.RateLimitedWorker.ServeOne | examples/some-issuer/src/lib.rs:131-206 | one turn of the loop, cause by cause: a credential that fails validation gets a bad request and one over the limit too many requests, both without a call or any change; otherwise the status of each call error, the hash, or an internal error for missing secrets; a transaction is acknowledged iff the credential is valid, the limit admits the user, and the chain acknowledges the current nonce; the worker ends iff the argument was invalid or secrets are missing after an acknowledgement |
| IssuerWorker.RateLimitedWorker.TxSender | examples/some-issuer/src/lib.rs:123-210 | with requests arriving and the senders going between any two receives, the loop serves its queue as the protocol does, until the channel is closed and exhausted, an invalid argument, or missing secrets |
| IssuerWorker.PlainWorker.TxSender | services/web3id-issuer/src/main.rs:145-165 | the plain loop, under the same arrivals, serves its queue as the protocol does and stops only when the channel is closed |
| IssuerWorker.PlainWorker.RegisterCredential | services/web3id-issuer/src/main.rs:168-184 | success with the current nonce iff the chain acknowledges it, and only then the nonce advances and the transaction is recorded |
| IssuerWorker.PlanServes | examples/some-issuer/src/lib.rs:131-206 | serving one message, on an open or a closed channel, is a run of the protocol's steps, in both variants |
| IssuerWorker.ServedIsReachable | examples/some-issuer/src/lib.rs:131-206 | from any reachable state with an idle worker and a message, whatever the request meets leads to a reachable state |
| IssuerWorker.LoopIsReachable | examples/some-issuer/src/lib.rs:123-210 | the loop interleaved with any arrivals that clients and channel allow takes reachable states to reachable states, so the safety results hold of the loop |
| IssuerWorker.LoopIsSafe | examples/some-issuer/src/lib.rs:123-210 | whatever happens to the loop from a fresh start: consecutive nonces, at most one acceptance without acknowledgement, the rate limit on what is registered, and no client answered twice |
| IssuerWorker.AnswersInOrder | examples/some-issuer/src/lib.rs:123-210 | requests are answered in the order of arrival, one response each, and what is not answered is still queued while the worker runs |
| IssuerWorker.AcknowledgedByTurn | examples/some-issuer/src/lib.rs:131-179 | every acknowledgement of the loop is made by one of its turns, which received a valid request of that client and user within the limit, and whose call the chain acknowledged |
| IssuerWorker.ClosedLoopStops | examples/some-issuer/src/lib.rs:208-209 | once the senders are gone the loop ends after its queue is exhausted, or before |
| Shutdown.AtMostFourMessages | examples/some-issuer/src/lib.rs:398-472 | in every interleaving at most four messages are sent, one by each task that ended normally, within the capacity of ten |
| Shutdown.NobodyMissesShutdown | services/web3id-issuer/src/main.rs:597-678 | no receiver lags or finds the channel closed; it hears the first message as soon as one was sent |
| Shutdown.TriggerHasCause | examples/some-issuer/src/lib.rs:474-503 | the main task passes its trigger only on a message from the signal handler after a signal or from a task that has ended |
| Shutdown.FailedSendIsHarmless | examples/some-issuer/src/lib.rs:406-413 | an announcement that finds no receiver comes after the main task has heard a message, or after a start that failed, which nobody waits on |
| Shutdown.SenderIsAborted | examples/some-issuer/src/lib.rs:488-494 | when the main task has returned the sender of transactions is not running, and no other task is ever aborted |
| Shutdown.HangsIffAllPanicked | examples/some-issuer/src/lib.rs:394-413 | while the main task waits, no step is left in the system iff nothing was announced and every spawned task has panicked |
| Shutdown.HangHappens | examples/some-issuer/src/lib.rs:394-413 | such a state is reachable |
| Shutdown.SendFailsIffMetrics | examples/some-issuer/src/lib.rs:408-411 | an announcement can fail before the main task returns iff the metrics server is configured |
| WalletIndex.ChooseIndex | test-tools/web3id-test/src/main.rs:389-404 | the unbounded search finds the first index whose key is not registered or stops on a query error, and ends, within 32 bits, if some index below 2^32 is not registered |
| WalletIndex.FindIndex | test-tools/web3id-test/src/main.rs:263-271 | the unbounded search finds the first index whose key is that of the credential and ends, within 32 bits, if some index below 2^32 has that key |
| WalletIndex.IndicesAgree | test-tools/web3id-test/src/main.rs:389-406 | for any key derivation and a registry that only grows, proving finds the index that registering chose |
| WalletIndex.RegisterThenProve | test-tools/web3id-test/src/main.rs:264-406 | the two searches one after the other agree |
| WalletIndex.AgreementNeedsGrowth | test-tools/web3id-test/src/main.rs:389-406 | with a registry from which a key goes away the two searches can disagree |
| DataCheckString.DataCheckString | examples/some-issuer/src/bin/telegram.rs:175-190 | the string written is the newline join of the present fields, however they are listed in key order |
| DataCheckString.FieldsAreSorted | examples/some-issuer/src/bin/telegram.rs:175-190 | for all eight combinations of optional fields the order written is strictly increasing and complete |
| DataCheckString.SortedListingIsUnique | examples/some-issuer/src/bin/telegram.rs:174-190 | fields can be listed in key order in only one way |
| DataCheckString.ReadBackIffNewlineFree | examples/some-issuer/src/bin/telegram.rs:175-190 | `Decode`, which reads a field from each line up to the next newline, gives the user back, decimal numbers included, iff no field contains a newline |
| SharedStrings.IdIffReadings | examples/some-issuer/src/bin/telegram.rs:175-190 | for every user, newlines or not: all users with its string have its id iff every line of the string that reads as an id, that is a third or later line with an id after which comes nothing or the start of an optional field, has this id |
| SharedStrings.IdIsNotDetermined | examples/some-issuer/src/bin/telegram.rs:175-190 | that can fail: for any two ids there are users with these ids and one string, because a first name with newlines imitates the lines of the other |
| SharedStrings.RequiredIffOneReading | examples/some-issuer/src/bin/telegram.rs:175-190 | for every user: all users with its string have its id, date and first name iff only one line reads as an id |
| SharedStrings.UniqueIffOneReading | examples/some-issuer/src/bin/telegram.rs:175-190 | for every user: it is the only one with its string iff only one line reads as an id and, after the line that starts the first optional field, none starts a field with a later key |
| SharedStrings.RequiredIsDetermined | examples/some-issuer/src/bin/telegram.rs:175-190 | the string of a user without newlines determines id, date and first name among all users |
| SharedStrings.UniqueIffFewOptionals | examples/some-issuer/src/bin/telegram.rs:175-190 | a user without newlines is the only user with its string iff at most one of last name, photo and user name is present |

## Left out

- Cryptography and SDK calls (proof verification, commitments, hashing, key derivation): opaque inputs.
- The node and the registry contract: replaced by the environment described above.
- Concurrent database transactions, the connection pool and timeouts.
- Exhaustion of the 64-bit serial and of 64-bit nonces.
- HTTP routing, sessions, OAuth, templates, metrics, logging and signal-handler setup.
- Discord user names and the bots: network calls.
- The TypeScript front ends and the two verifier services: user interface and thin wrappers.
- The timestamp and challenge checks of requests and the checks of `validate_credential`: an input says whether they pass.
- The response senders inside channel messages: a client id stands for its oneshot channel.
- WalletIndex.ChooseIndex: does not model the overflow of the 32-bit counter, which needs 2^32 registered keys.
- WalletIndex.FindIndex: does not model the overflow of the 32-bit range, which needs a credential of another wallet.
- Closing of the request channel: allowed as soon as nobody is still sending, which includes the runs of the source, where waiting handlers also hold a sender.
