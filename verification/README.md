# Howdy: the WebAuthn stack, the PAM race and the face checks

Howdy lets a face stand in for a password. This project models the parts of it whose correctness rests on
protocols, concurrency and bookkeeping, and proves what they promise.

* **CTAPHID transport** (`CtapHidFraming`, `CtapHidChannel`, `CtapHidFeed`, `CtapHidDevice`, `CtapHidStreams`,
  `CtapHidThreads`, `CtapHidGuarantees`, `CtapHidAnswers`, `CtapHidWitness`). Framing and reassembly of 64-byte
  reports; the classes `Channel` and `CtapHidDevice` proved against functions on values; the feed thread, the worker of
  each CBOR transaction and its keepalive thread as a state machine that interleaves at every lock, report, thread
  start, stop and join.
* **Cancelling** (`CtapHidCancels`). The transport and the face verifier composed: which accepted cancel takes effect.
* **PAM race** (`PamTask`, `PamRace`). `identify` from the spawn on: the main thread, the task that waits for the
  compare process and the task that asks for the password, with spurious wake-ups, thread cancellation, every raw wait
  status and every result of `pam_get_authtok`.
* **Credential store** (`Base64Url`, `CredentialStore`, `StoreLaws`, `StoreContents`, `StoreProcesses`). The record
  codec, the operations on the file, each step of which may fail, and any number of processes that lock, reload, change,
  write, rename, fail and crash.
* **Authenticator** (`AuthenticatorRequests`, `Authenticator`, `AuthenticatorGate`, `AuthenticatorCounters`,
  `AuthenticatorCalm`, `AuthenticatorRoundTrip`, `AuthenticatorAnswers`). The CTAP2 commands as one function on values
  and as a class proved against it. The transport calls `handle_cbor` for one transaction at a time
  (`CtapHidGuarantees.OneHandlerAtATime`), so the class is sequential; other processes act on the file before every
  store operation of a call, and each lock and each write may fail.
* **Face verifier** (`FaceVerifier`). Any number of threads in `verify` and `cancel`.
* **Nod stamp** (`Nod`), **LBP histogram** (`Lbp`, `LbpHistogram`), **liveness and decision loop** (`Liveness`).

Two forms recur. A class whose methods change fields is proved against a function from the old value to the new value
and a list of effects; what that function does is then stated once more on its raw inputs, without the function's own
helpers (the lemmas whose names end in `Exactly`, `Answered`, `Accepted` or `Read`, and `StoreContents`). A concurrent
part is a machine: `Enabled` and `Do` say what a step is, `After` is the world after a schedule, an invariant is kept by
every step, and the guarantees hold after every schedule. What comes from outside (face check results, keys, signatures,
ids, clocks, frames, exit codes, decoded CBOR) is an arbitrary input.

Where the code and its documentation differ, the model follows the code:

* `docs/webauthn-design.md:500` says that no code path signs without a fresh face match. A getAssertion with `up` set to
  false does (`AuthenticatorGate.SilentSigns`); `SilentExactly` says exactly when, and that such an answer claims
  neither user presence nor verification.
* A failed signature in the middle of a getAssertion leaves the queue of the earlier one in place, and so does a reset:
  `AuthenticatorGate.PendingIsSuffix` therefore speaks of the latest *completed* getAssertion.
* `identify` called without asking for a password but with a workaround configured stops a thread that was never
  started: it ends with an exception for the input workaround and in undefined behaviour for the native one.
  `PamRace.ThrowsExactlyWhen` gives the condition, `SessionThrows` and `SessionUndefined` a schedule of each.
* `increment_counter` releases the lock before it returns, so overlapping calls may return out of order
  (`StoreProcesses.OverlappingReturns`); no value is ever returned twice, and calls that do not overlap return growing
  values.
* A CBOR response of 7610 bytes or more never reaches the host (`CtapHidWitness.LongResponseIsLost`), and one whose
  length does not fit the frame header is not written at all.
* An accepted CTAPHID_CANCEL does not always end the face check of its transaction: `verify` clears the flag when it
  spawns the child, so a cancel that comes before that is lost (`CtapHidCancels.EarlyCancelIsLost`).
  `CtapHidCancels.CancelTakesEffect` says exactly which cancels count.
* A payload of 7610 to 65535 bytes can be framed but not reassembled, since the sequence number wraps after 128 frames
  (section 11.2.4 of CTAP 2.1): `CtapHidStreams.DeviceRoundTrip` gives both sides.

## Model

| member | source | states |
|---|---|---|
| CtapHidFraming.NeededIsExact | howdy/src/webauthn/ctaphid.py:282-289 | another continuation frame follows exactly while payload is left, and the sequence number does not wrap exactly up to 7609 bytes |
| CtapHidFraming.FirstFragmentParses | howdy/src/webauthn/ctaphid.py:275-280 | the first frame sent is read back as an initialization frame with the id, command, declared length and first bytes of the message |
| CtapHidFraming.NextFragmentParses | howdy/src/webauthn/ctaphid.py:282-289 | every later frame is read back as a continuation of the same channel with its sequence number modulo 128 and the next bytes |
| CtapHidFraming.FragmentBytes | howdy/src/webauthn/ctaphid.py:275-289 | the bytes of every frame: big-endian channel id, marked command and length or sequence number modulo 128, the payload bytes in order, zeros to the end |
| CtapHidFraming.ParsedBytes | howdy/src/webauthn/ctaphid.py:95-109 | where channel id, command, length, sequence number and payload of a report are read from |
| CtapHidChannel.ChanStep | howdy/src/webauthn/ctaphid.py:131-155 | a channel stays cleared or mid-message with 57 + 59 n bytes, n at most 128, short of the declared length; nothing over 7609 bytes is dispatched, and dispatching clears it |
| CtapHidChannel.PartialIsHeld | howdy/src/webauthn/ctaphid.py:131-155 | a stream that ends in an incomplete message leaves exactly its command, declared length and received bytes in the channel |
| CtapHidChannel.PendingCharacterized | howdy/src/webauthn/ctaphid.py:131-155 | for every stream, a channel is mid-message exactly when the stream ends in an incomplete unbroken message |
| CtapHidChannel.DispatchCharacterized | howdy/src/webauthn/ctaphid.py:131-155 | for every stream, the last frame dispatches a payload exactly if it completes an unbroken message, and the payload is the declared number of received bytes |
| CtapHidChannel.SequenceErrorCharacterized | howdy/src/webauthn/ctaphid.py:141-150 | a sequence error is raised exactly by a continuation that is out of order for an incomplete message |
| CtapHidChannel.FramingRoundTrip | howdy/src/webauthn/ctaphid.py:131-155 | the frames of a message make a channel give back that message once, at the end, up to 7609 bytes, and exactly one sequence error above |
| CtapHidFeed.PhasesCompose | howdy/src/webauthn/ctaphid.py:95-265 | the atomic phases in which the feed thread handles a report amount, without interference, to the report handled in one go |
| CtapHidAnswers.InitAnswered | howdy/src/webauthn/ctaphid.py:163-186 | what an INIT is answered with, byte for byte, and what it does: a nonce of 8 bytes is returned with the id just registered, or with its own id after the channel is reset and its transaction aborted |
| CtapHidAnswers.InitFrameAnswered | howdy/src/webauthn/ctaphid.py:115-129 | unknown channels, cancels and requests while another channel is active: the error codes, the flags set, and that nothing else changes |
| CtapHidAnswers.MessageAnswered | howdy/src/webauthn/ctaphid.py:131-221 | what a frame taken in by its channel leads to: nothing, one sequence error, or the delivery of a message with its answer: PING the same bytes, WINK and LOCK empty, CBOR a worker on the whole payload or error 3 or 6, all others error 1 |
| CtapHidAnswers.SpawnsExactly | howdy/src/webauthn/ctaphid.py:202-221 | a worker is started on a channel and payload exactly if this non-empty CBOR message was delivered and no transaction was active |
| CtapHidDevice.Channel.Begin | howdy/src/webauthn/ctaphid.py:131-139 | an accepted initialization frame drops what was being reassembled and does what the channel automaton does |
| CtapHidDevice.Channel.Append | howdy/src/webauthn/ctaphid.py:141-155 | a continuation frame does what the channel automaton does |
| CtapHidDevice.CtapHidDevice.SendFrames | howdy/src/webauthn/ctaphid.py:269-289 | the send loop writes exactly the frames of the message, none if its length does not fit the header |
| CtapHidDevice.CtapHidDevice.CancelActive | howdy/src/webauthn/ctaphid.py:258-265 | a cancel counts, and aborts the face check, only on the channel of the running transaction |
| CtapHidDevice.CtapHidDevice.StartCbor | howdy/src/webauthn/ctaphid.py:208-221 | an empty request and a second transaction are refused with their errors, otherwise one worker starts and the cancel flag is cleared |
| CtapHidDevice.CtapHidDevice.HandleContFrame | howdy/src/webauthn/ctaphid.py:141-155 | a continuation changes its own channel only, and is ignored for an unknown one |
| CtapHidDevice.CtapHidDevice.HandleCtapHidInit | howdy/src/webauthn/ctaphid.py:163-186 | a broadcast INIT registers the next id, another INIT clears its channel and aborts its transaction; the whole new state and the reply, and when it raises |
| CtapHidDevice.CtapHidDevice.HandleInitFrame | howdy/src/webauthn/ctaphid.py:107-139 | which initialization frames are refused, cancel, re-sync or start a message, with the whole new state and every message sent |
| CtapHidDevice.CtapHidDevice.FeedReport | howdy/src/webauthn/ctaphid.py:95-105 | one report takes the object from its old value to the value and effects of the feed function, and the wire stays the frames of the messages sent |
| CtapHidStreams.DeviceRoundTrip | howdy/src/webauthn/ctaphid.py:95-155 | feeding the frames of a message on a registered channel, no other channel active, delivers that message once if it has at most 7609 bytes, otherwise sends one ERR_INVALID_SEQ and delivers nothing |
| CtapHidStreams.ChannelIsolation | howdy/src/webauthn/ctaphid.py:95-155 | for any interleaved stream and any answers to the busy check, a channel ends where its own events alone lead, and exactly the messages they complete are delivered on it |
| CtapHidStreams.NonInterference | howdy/src/webauthn/ctaphid.py:107-186 | the messages delivered on a channel are those that the reports with its id alone would deliver, given the same answers of the busy check |
| CtapHidStreams.AllocatedIds | howdy/src/webauthn/ctaphid.py:168-172 | the n-th allocation registers id n, so ids are distinct and nonzero, and the broadcast id is not given out in the first 2^32 - 2 |
| CtapHidStreams.ChannelHistory | howdy/src/webauthn/ctaphid.py:95-186 | from the start of the device, a registered channel holds what its own events since its allocation lead an idle one to, and the messages delivered on it are those they complete; nothing is delivered on an id that is not registered |
| CtapHidStreams.DeliveredIsCompleted | howdy/src/webauthn/ctaphid.py:131-155 | the events of a channel deliver a message exactly if one of them completes it: an unbroken message of its command whose declared number of received bytes is its payload |
| CtapHidStreams.FeedHandles | howdy/src/webauthn/ctaphid.py:95-206 | a report handled by the device changes its channels and delivers messages as the stream laws above say |
| CtapHidStreams.IdleNonInterference | howdy/src/webauthn/ctaphid.py:95-206 | while no CBOR transaction is active, the messages that the device delivers on a channel from any interleaved stream are those it delivers from the reports of that channel alone |
| CtapHidThreads.ActiveKept | howdy/src/webauthn/ctaphid.py:208-265 | every step of every thread keeps the shared fields in line with the newest transaction, and no older one is before its locked read |
| CtapHidThreads.LogKept | howdy/src/webauthn/ctaphid.py:223-289 | every step keeps each logged message one that its sender wanted to send, and nothing of a transaction after its reply |
| CtapHidGuarantees.WholeMessages | howdy/src/webauthn/ctaphid.py:269-289 | in every schedule the reports written are whole messages in the order of the send lock; a host that reassembles by channel and sequence number reads exactly those of at most 7609 bytes, in that order, hence all of them exactly if no response is longer |
| CtapHidWitness.LongResponseIsLost | howdy/src/webauthn/ctaphid.py:208-289 | for every response over 7609 bytes a schedule in which it is the last message logged by the transport and is not among the messages that the host reads; from 65536 bytes on no report of it is written |
| CtapHidGuarantees.OneHandlerAtATime | howdy/src/webauthn/ctaphid.py:208-242 | in every schedule at most one handle_cbor is running, for the newest transaction |
| CtapHidGuarantees.ExactlyOneReply | howdy/src/webauthn/ctaphid.py:223-251 | in every schedule an ended transaction wrote exactly one reply, its response, or none exactly if the last cancel accepted before its locked read was an INIT re-sync or the length of the response does not fit the frame header |
| CtapHidGuarantees.KeepalivesBeforeReply | howdy/src/webauthn/ctaphid.py:226-256 | in every schedule all keepalives of a transaction come before its reply, on its channel, with status UPNEEDED |
| CtapHidGuarantees.DeliveriesAreHandled | howdy/src/webauthn/ctaphid.py:95-206 | in every schedule the channels and the delivered messages are what the fed reports lead to, in order |
| CtapHidGuarantees.DeliveredExactly | howdy/src/webauthn/ctaphid.py:95-206 | in every schedule, from no channel on, a registered channel was allocated by some report and holds what its own events since then lead to; a message is delivered exactly if one of these events completes it, and never on an id that is not registered |
| CtapHidAnswers.TransactionsAreDelivered | howdy/src/webauthn/ctaphid.py:202-231 | in every schedule the transactions were started on the channels and payloads of distinct delivered CBOR messages, in the order of delivery |
| CtapHidGuarantees.NeverStuck | howdy/src/webauthn/ctaphid.py:208-289 | no schedule deadlocks: while a message is being sent or a transaction is unfinished, some thread can move |
| PamTask.OptionalTask.Activate | howdy/src/pam/optional_task.hh:32-36 | an activated task holds a thread and is spawned and active |
| PamTask.OptionalTask.Stop | howdy/src/pam/optional_task.hh:59-72 | stop joins once and does nothing more on a stopped task; for a task that was never activated it throws, or is undefined if it is to cancel the thread first |
| PamTask.OptionalTask.Destroy | howdy/src/pam/optional_task.hh:74-78 | the destructor stops a task only if it is still active, and never throws |
| PamTask.StopJoinsOnce | howdy/src/pam/optional_task.hh:32-78 | activating and stopping joins exactly once however often stop is repeated, makes get allowed, and leaves the destructor nothing to do |
| PamTask.StopExactly | howdy/src/pam/optional_task.hh:59-78 | when stop skips, joins, throws or is undefined, in any state of the task, and the fields that it and the destructor leave |
| PamRace.ReturnedResult | howdy/src/pam/main.cc:279-424 | in every schedule that returns, the flag was written once; a password that was first decides by its own result; with the face first, raw status 0 is PAM_SUCCESS, an exit with an error code lets a prompt finish without press or cancel and a good password is then handed on, and any other status is PAM_AUTH_ERR |
| PamRace.ErrorExitWaits | howdy/src/pam/main.cc:357-374 | a compare process that exits with any code from 1 to 255 first leaves the decision to the password: PAM_IGNORE exactly if it is good, otherwise PAM_AUTH_ERR |
| PamRace.SignalFails | howdy/src/pam/main.cc:361-424 | a compare process ended by a signal first means PAM_AUTH_ERR, whatever the password |
| PamRace.IgnoreMeansPassword | howdy/src/pam/main.cc:331-374 | the two returns that hand a password on happen only after pam_get_authtok succeeded, and PAM_IGNORE comes from nowhere else unless pam_get_authtok returned it |
| PamRace.GetsAllowed | howdy/src/pam/main.cc:335-368 | in every schedule every get meets its assertion and finds a result |
| PamRace.JoinedOnce | howdy/src/pam/main.cc:298-424 | before every return each activated task has been joined exactly once, so the destructors do nothing |
| PamRace.PressesBounded | howdy/src/pam/main.cc:392-411 | Enter is pressed at most six times, only after the face decided and with the input workaround, and after the first time only while the prompt is open |
| PamRace.ThrowsExactlyWhen | howdy/src/pam/main.cc:376-424 | identify returns exactly if a password is asked for or no workaround is set; otherwise it ends on a task that was never activated, with an exception for the input workaround and undefined behaviour for the native one |
| PamRace.SessionThrows | howdy/src/pam/main.cc:316-424 | a schedule without password in which the face matched and identify throws |
| PamRace.SessionUndefined | howdy/src/pam/main.cc:316-383 | a schedule without password in which the face matched and identify cancels a thread that never was |
| PamRace.NeverStuck | howdy/src/pam/main.cc:279-424 | until identify ends, some step other than a spurious wake-up is possible, and once the flag is set a main thread that still waits can be woken or is about to be notified: no notification is lost |
| Base64Url.PaddingRestored | howdy/src/webauthn/store.py:15-20 | the stored text never has length 1 modulo 4 and no pad, and the padding put back is exactly what was stripped (section 3.2 of RFC 4648) |
| Base64Url.B64RoundTrip | howdy/src/webauthn/store.py:15-20 | decoding the encoded text gives back the bytes, for all byte strings |
| Base64Url.LettersExactly | howdy/src/webauthn/store.py:15-16 | letter j of the text stands for bits 6 j to 6 j + 5 of the data (section 4 of RFC 4648) |
| Base64Url.LetterExactly | howdy/src/webauthn/store.py:15-16 | the alphabet is that of table 2 of RFC 4648 |
| CredentialStore.DictRoundTrip | howdy/src/webauthn/store.py:40-51 | every credential survives being written as a record and read back |
| CredentialStore.LoadRestoresSaved | howdy/src/webauthn/store.py:79-109 | a saved list is loaded unchanged |
| CredentialStore.CredentialStore.constructor | howdy/src/webauthn/store.py:65-68 | a new store holds what its file holds |
| CredentialStore.CredentialStore.Load | howdy/src/webauthn/store.py:79-92 | loading replaces the cached list by the one in the file, or fails and keeps it |
| CredentialStore.CredentialStore.Save | howdy/src/webauthn/store.py:94-109 | saving leaves a file that holds exactly the cached list, or the old file if the write or the rename fails |
| CredentialStore.CredentialStore.AddCredential | howdy/src/webauthn/store.py:117-127 | add leaves file, cache and reply as the operation on the reloaded list does; if the write fails, the file stays and the cache is ahead of it, and if the lock cannot be had, both stay |
| CredentialStore.CredentialStore.IncrementCounter | howdy/src/webauthn/store.py:146-159 | increment_counter leaves file, cache and reply as the operation on the reloaded list does, and fails for an unknown id; if the write fails, the file stays and nothing is returned, and if the lock cannot be had, the cache stays too |
| CredentialStore.CredentialStore.RemoveCredential | howdy/src/webauthn/store.py:161-169 | remove saves only if something was removed, and says whether it was; a failing write leaves the file, a failing lock the cache as well |
| CredentialStore.CredentialStore.DestroyAllCredentials | howdy/src/webauthn/store.py:174-180 | destroy_all clears the cache and removes the file, whatever it held, or fails and leaves it; if the lock cannot be had, it leaves the cache too |
| StoreContents.LoadedExactly | howdy/src/webauthn/store.py:79-92 | a missing file is an empty store; any other is read exactly if it has version 1 and all its records can be read, and then record by record |
| StoreContents.AddKeepsOthers | howdy/src/webauthn/store.py:117-127 | after an add the list is the old one without the credentials of the same relying party and user handle, in its order, and the new one last |
| StoreContents.RemoveTakesId | howdy/src/webauthn/store.py:161-169 | a remove drops exactly the credentials with this id, keeps the order of the others, and says whether there were any |
| StoreContents.IncrementCountsOne | howdy/src/webauthn/store.py:146-159 | increment_counter adds one to the counter of the first credential with this id and replies it, changes nothing else, and fails exactly if there is none |
| StoreContents.AttemptExactly | howdy/src/webauthn/store.py:73-180 | without the lock nothing changes; without a write the file stays and the cache is what would have been saved; otherwise both are what the operation makes of the file |
| StoreContents.StaysStored | howdy/src/webauthn/store.py:117-180 | a stored credential is there, up to its counter, after any operations without an add for its account, a remove of its id or a destroy_all |
| StoreContents.ComesFrom | howdy/src/webauthn/store.py:117-180 | whatever is in the file after any operations was in it before or was added, up to its counter |
| StoreLaws.AccountsStayUnique | howdy/src/webauthn/store.py:117-127 | any operations on an empty store leave at most one credential per relying party and user handle |
| StoreLaws.CountersCount | howdy/src/webauthn/store.py:146-159 | after any operations that never re-add an id, every stored counter is the one the credential came with plus its successful increments |
| StoreLaws.IncrementReply | howdy/src/webauthn/store.py:146-159 | a successful increment returns the counter the credential came with plus its successes so far |
| StoreLaws.CountersIncrease | howdy/src/webauthn/store.py:146-159 | of two successful increments of one credential the later returns the larger value |
| StoreLaws.SortedIsStable | howdy/src/webauthn/store.py:144 | the sort gives a newest-first permutation that keeps the order of equal times |
| StoreLaws.FindForRpCharacterized | howdy/src/webauthn/store.py:135-144 | find_for_rp returns the one stable newest-first order of exactly the credentials of the relying party that are listed, or resident if there is no allow list |
| StoreProcesses.FileKept | howdy/src/webauthn/store.py:73-180 | every step of every process keeps the file equal to the committed operations applied one by one |
| StoreProcesses.Linearizable | howdy/src/webauthn/store.py:73-180 | in every schedule of several processes with failures and crashes, the file and all replies are those of the committed operations one by one in lock order; a returned reply is that of the one commit its call made while it was under way, no commit is returned twice, and a call that returned before another began comes before it |
| StoreProcesses.OnlyCommitsChangeTheFile | howdy/src/webauthn/store.py:94-115 | only the lock holder's commit changes the file, to what its operation makes of it; a crash or a failed write changes nothing |
| StoreProcesses.CachesFollow | howdy/src/webauthn/store.py:65-180 | a process whose operation takes effect has cached the list that the file then holds; a refresh caches a readable file; nothing else but the reload and the change of its own operation touches its cache |
| StoreProcesses.CountersNeverRepeat | howdy/src/webauthn/store.py:146-159 | no value increment_counter returned for a credential is returned for it again by any process; the values are ordered as the commits are, overlapping calls or not, so a call that begins after another returned returns the larger value |
| StoreProcesses.Uncontended | howdy/src/webauthn/store.py:117-169 | a waiting call that finds the lock free and meets no failure commits its operation and releases the lock |
| StoreProcesses.OverlappingReturns | howdy/src/webauthn/store.py:152-159 | two overlapping calls of increment_counter can return out of order, the larger value first |
| AuthenticatorRequests.OffersES256Characterized | howdy/src/webauthn/authenticator.py:198-199 | makeCredential accepts the key parameters exactly if an ES256 public-key entry comes before any entry that is not a map, and finds none exactly if all are maps and none matches |
| AuthenticatorRequests.MakingAccepted | howdy/src/webauthn/authenticator.py:175-211 | exactly which requests makeCredential does not refuse as malformed, in terms of the decoded map |
| AuthenticatorRequests.MakingRefused | howdy/src/webauthn/authenticator.py:184-203 | the error of one that it does refuse: missing parameter, PIN probe, invalid parameter, invalid option, unsupported algorithm |
| AuthenticatorRequests.MakingRead | howdy/src/webauthn/authenticator.py:176-235 | which entries of the request each value is read from: ids, names, rk, credProtect, and the excluded ids |
| AuthenticatorRequests.AssertingAccepted | howdy/src/webauthn/authenticator.py:258-273 | exactly which requests getAssertion reads, what it reads from them, and the errors of the others |
| Authenticator.Authenticator.IsExcluded | howdy/src/webauthn/authenticator.py:205-211 | whether the first cached credential with some listed id belongs to the relying party |
| Authenticator.Authenticator.MakeNew | howdy/src/webauthn/authenticator.py:175-256 | makeCredential takes the object from its old value to the value, events and answer of the specification, for names that are text or absent |
| Authenticator.Authenticator.AssertEach | howdy/src/webauthn/authenticator.py:296-300 | the assertions are built one after the other and the first failure ends them, keeping the counters already advanced |
| Authenticator.Authenticator.GetAssertions | howdy/src/webauthn/authenticator.py:258-304 | getAssertion takes the object from its old value to the value, events and answer of the specification |
| Authenticator.Authenticator.NextAssertion | howdy/src/webauthn/authenticator.py:343-354 | getNextAssertion pops the queue within its window and clears it after |
| Authenticator.Authenticator.ResetAll | howdy/src/webauthn/authenticator.py:356-362 | reset destroys the credentials only within its window and after a face check, and leaves the queue |
| Authenticator.Authenticator.Handle | howdy/src/webauthn/authenticator.py:110-156 | handle_cbor answers malformed, unknown and unsupported requests with their errors and otherwise does what the command's specification says |
| AuthenticatorAnswers.RefusedBefore | howdy/src/webauthn/authenticator.py:115-141 | the empty request, undecodable or non-map CBOR and unknown commands are refused with their errors and change nothing |
| AuthenticatorAnswers.CommandsDispatched | howdy/src/webauthn/authenticator.py:128-145 | which command each first byte is, whatever the parameters |
| AuthenticatorAnswers.ResetExactly | howdy/src/webauthn/authenticator.py:356-362 | reset is refused after 10 seconds and without a face; it succeeds exactly if store and keys can be destroyed, leaves no file and no credential, and does not touch the queue |
| AuthenticatorAnswers.NextExactly | howdy/src/webauthn/authenticator.py:343-354 | getNextAssertion pops the first pending assertion within 30 seconds, without the number of credentials, and else refuses, dropping a late queue |
| AuthenticatorAnswers.MakingRefusals | howdy/src/webauthn/authenticator.py:205-219 | an excluded credential is disclosed exactly after a successful face check; a failed check changes nothing |
| AuthenticatorAnswers.AssertingRefusals | howdy/src/webauthn/authenticator.py:275-315 | no match is refused without a face check; a silent request is answered exactly if the stored counter fits 32 bits and the key can sign |
| AuthenticatorAnswers.CountedBeforeSigned | howdy/src/webauthn/authenticator.py:317-324 | the counter of a match is advanced in the store first; it is asserted, with that counter, exactly if the store replied one that fits 32 bits and the key can sign |
| AuthenticatorGate.CallIsGated | howdy/src/webauthn/authenticator.py:57-366 | every call checks the face at most once and before anything else; without a face it leaves the store alone and builds nothing with UP or UV; a failed check is answered with user action timeout, keepalive cancel or operation denied |
| AuthenticatorGate.ReleasedAfterFace | howdy/src/webauthn/authenticator.py:98-354 | over any run, everything released with UP or UV, by getNextAssertion too, was built by a call that had just seen a face |
| AuthenticatorGate.ReleasedForMatch | howdy/src/webauthn/authenticator.py:258-354 | over any run, everything getAssertion and getNextAssertion release with UP or UV was made for a match of a getAssertion: its id and relying party, a signature by its key over that request's hash, and its user handle, with names, exactly as the request allows |
| AuthenticatorGate.RefusedLeavesStore | howdy/src/webauthn/authenticator.py:98-366 | over any run, a call without a successful face check leaves the store unchanged |
| AuthenticatorGate.PendingIsSuffix | howdy/src/webauthn/authenticator.py:296-354 | over any run, the pending queue is a suffix of the assertions after the first of the latest completed getAssertion that was not silent |
| AuthenticatorGate.DrainsInOrder | howdy/src/webauthn/authenticator.py:343-354 | calls in the window release the queue in order, without the number of credentials |
| AuthenticatorGate.EachMatchOnce | howdy/src/webauthn/authenticator.py:296-354 | one getAssertion over k matches and k - 1 calls in the window yield each match once, newest first, with the user handle exactly if there was no allow list, the names exactly if moreover k > 1, and the number of credentials on the first only and only if k > 1; the next call is refused |
| AuthenticatorGate.LateLosesQueue | howdy/src/webauthn/authenticator.py:343-348 | a getNextAssertion after more than 30 seconds is refused, and so are all later ones until a getAssertion completes |
| AuthenticatorGate.SilentExactly | howdy/src/webauthn/authenticator.py:276-315 | an answered getAssertion saw a face exactly if up was not false; a silent one claims no user, names none, repeats the stored counter, is signed by the key of the newest match, and changes nothing |
| AuthenticatorGate.SilentSigns | howdy/src/webauthn/authenticator.py:285-315 | a store in step with its file and a request that is signed without a face check |
| AuthenticatorGate.ExcludedCharacterized | howdy/src/webauthn/authenticator.py:205-211 | with distinct ids, a request is excluded exactly if a cached credential of the relying party has a listed id |
| AuthenticatorCounters.RunLeads | howdy/src/webauthn/authenticator.py:110-362 | over any run with failing writes, the file is what all saved operations of this and other processes make of the first file, and every reply fits its place |
| AuthenticatorCounters.RunPairs | howdy/src/webauthn/authenticator.py:317-341 | over any run, every assertion with UP holds the counter its credential was given just before |
| AuthenticatorCounters.CountersStrictlyIncrease | howdy/src/webauthn/authenticator.py:317-324 | over any run, with other processes at the store and with failing writes and signatures, the counters inside the UP and UV assertions of one credential strictly increase |
| AuthenticatorCalm.CalmRun | howdy/src/webauthn/authenticator.py:175-362 | if nobody else uses the store, writes and signatures succeed, ids are new and no counter can run out, every call that counts is answered, the cache stays in step with the file, and no counter grows by more than one in a call |
| AuthenticatorCalm.CountersCountAssertions | howdy/src/webauthn/authenticator.py:317-324 | under these conditions the counters inside the assertions of a credential are the one it came with plus 1, 2, 3 |
| AuthenticatorCalm.NewCredentialsCountFromOne | howdy/src/webauthn/authenticator.py:225-324 | and for a credential made in the run exactly 1, 2, 3 |
| AuthenticatorCounters.EachMatchCountsOnce | howdy/src/webauthn/authenticator.py:275-324 | a getAssertion with a face adds exactly one to the counter of each matched credential and nothing to any other |
| AuthenticatorRoundTrip.ReleasesMatches | howdy/src/webauthn/authenticator.py:258-341 | a getAssertion with a face releases, at once and in its queue, one assertion for each match, newest first: its id, the next counter, a signature by its key, its user handle exactly without an allow list, names and number exactly if there are more |
| AuthenticatorRoundTrip.MadeIsStored | howdy/src/webauthn/authenticator.py:175-256 | with names that are text or absent, makeCredential succeeds exactly for a well-formed request with a face that is not excluded when nothing fails; it has then stored, last in the file and beside all credentials of other accounts, the one asked for with counter 0 and the new id and key, and attests these, signed by the key |
| AuthenticatorRoundTrip.MadeFromRequest | howdy/src/webauthn/authenticator.py:175-256 | the stored credential in terms of the request: its relying party, user, names and protection are the request's, it is resident exactly if rk is truthy, and the attested data have UP and UV and counter 0 |
| AuthenticatorRoundTrip.RegisteredCanSign | howdy/src/webauthn/authenticator.py:175-354 | a credential that was just made is asserted, with counter one and a signature by the registered key, by the next getAssertion with a face for its relying party that lists its id or, if rk was truthy, has no list; it is released at once or by getNextAssertion, and alone if the list names it only |
| AuthenticatorRoundTrip.NotResidentIsHidden | howdy/src/webauthn/authenticator.py:225-304 | one made without rk is neither found nor asserted by a getAssertion without an allow list |
| AuthenticatorRoundTrip.RunKeepsCredential | howdy/src/webauthn/authenticator.py:110-362 | over any run, with other processes and failures, a stored credential stays in the file, up to its counter, unless its account is registered again, its id removed or all destroyed |
| FaceVerifier.FromExitCode | howdy/src/verification.py:27-33 | the one result with this value, or an unknown error for a code that is none's |
| FaceVerifier.ExitCodes | howdy/src/verification.py:12-33 | the exit codes of the compare process by number |
| FaceVerifier.FaceVerifier.Spawn | howdy/src/verification.py:61-74 | the first critical section refuses a second call, clears an old cancel, and holds the child or reports that it could not be spawned |
| FaceVerifier.FaceVerifier.FinalRead | howdy/src/verification.py:87-89 | the last critical section forgets the child and reads the cancel flag |
| FaceVerifier.FaceVerifier.Cancel | howdy/src/verification.py:100-105 | a cancel sets the flag and terminates the current child, if there is one |
| FaceVerifier.VerdictByLockOrder | howdy/src/verification.py:52-98 | in every interleaving a call that spawned returns CANCELLED exactly if a cancel held the lock between its two critical sections or its child exited with 250 in time, SUCCESS exactly if uncancelled, not timed out and exit code 0, otherwise a timeout, ABORT for a signal or the meaning of its exit code; a cancelled or timed-out child was terminated |
| FaceVerifier.OneChildAtATime | howdy/src/verification.py:61-89 | in every interleaving at most one child is unreaped, and none of a call that returned |
| FaceVerifier.BusyAborts | howdy/src/verification.py:61-74 | in every interleaving a call that gets the lock spawns exactly if no other call is between its critical sections and the spawn succeeds |
| FaceVerifier.CancelTerminates | howdy/src/verification.py:100-105 | in every interleaving a cancel terminates the child of the one call between its critical sections, if there is one, and touches no other call |
| FaceVerifier.InvokeExactly | howdy/src/verification.py:58-59 | without a user or for root verify returns ABORT at once, and spawns nothing |
| CtapHidCancels.CancelTakesEffect | howdy/src/verification.py:52-105 | in every schedule of transport and verifier, a call of verify that spawned a child returns CANCELLED exactly if a cancel accepted for its own transaction held the lock between the spawn and the final read, or the child exited with 250 in time |
| CtapHidCancels.AbortsStayHome | howdy/src/webauthn/ctaphid.py:258-265 | in every schedule, a cancel that reaches a call of verify was accepted for the transaction of that call: no abort reaches a later transaction |
| CtapHidCancels.EveryCancelAborts | howdy/src/webauthn/ctaphid.py:258-265 | in every schedule, each cancel accepted for a transaction has called the verifier exactly once, but for one that the feed thread is about to make |
| CtapHidCancels.NeverBusy | howdy/src/verification.py:61-74 | under the transport a call of verify never finds another one running: its first section spawns unless Popen fails |
| CtapHidCancels.EarlyCancelIsLost | howdy/src/verification.py:61-89 | a schedule in which a cancel is accepted for a transaction and its face check succeeds all the same |
| Nod.RecordedIsAlternation | howdy/src/rubberstamps/nod.py:67-75 | the recorded nods are an alternating subsequence of the movements over the threshold, ending with the sign of the last |
| Nod.RecordedIsLongest | howdy/src/rubberstamps/nod.py:67-75 | no alternating subsequence of the movements is longer |
| Nod.RecordedIsOptimal | howdy/src/rubberstamps/nod.py:67-78 | the record reaches a length exactly if some alternation of that length exists |
| Nod.MovesExactly | howdy/src/rubberstamps/nod.py:48-71 | the movement between two faces, along x for shaking and y for nodding, in percent of the averaged eye distance, and when it is over the threshold |
| Nod.TrackFace | howdy/src/rubberstamps/nod.py:53-95 | one face answers no if shaking has alternated often enough, else yes if nodding has, else goes on with positions and records brought up to date |
| Nod.Run | howdy/src/rubberstamps/nod.py:15-98 | the stamp ends at the first face by which an axis has alternated often enough, with yes exactly if shaking has not; without one it fails safe or deadly |
| Lbp.FiftyEight | howdy/src/onnx_face.py:151-163 | exactly 58 of the 256 codes have at most two transitions around the circle |
| Lbp.UniformExactly | howdy/src/onnx_face.py:156-158 | a code is uniform exactly if at most two neighbours around the circle of its eight bits differ |
| Lbp.BuildUniformLbpLut | howdy/src/onnx_face.py:151-163 | the table gives each uniform code the number of uniform codes before it, and 58 to all others |
| Lbp.BinRange | howdy/src/onnx_face.py:151-163 | every code falls into one of 59 bins, and into bin 58 exactly if it is not uniform |
| Lbp.CodeOfBin | howdy/src/onnx_face.py:151-163 | bins below 58 and uniform codes correspond one to one |
| Lbp.TurnedBinPermutes | howdy/src/onnx_face.py:151-163 | turning the neighbourhood by a quarter permutes the 58 uniform bins and keeps the last |
| LbpHistogram.Codes | howdy/src/onnx_face.py:451-457 | the loop over the neighbours leaves in every pixel the code of its eight comparisons |
| LbpHistogram.CodeExactly | howdy/src/onnx_face.py:448-457 | the code of a pixel as the sum of the bits of its eight neighbours that are not darker, clockwise from the upper left |
| LbpHistogram.BinCount | howdy/src/onnx_face.py:448-459 | each bin is counted once per interior pixel whose code falls into it |
| LbpHistogram.CountsSumToArea | howdy/src/onnx_face.py:448-459 | the 59 counts sum to (h - 2)(w - 2) |
| LbpHistogram.RemapKeepsHistogram | howdy/src/onnx_face.py:448-459 | no strictly increasing change of grey levels changes a count |
| LbpHistogram.RotationPermutesHistogram | howdy/src/onnx_face.py:448-459 | a quarter turn keeps the last count and moves the 58 others by one permutation, the same for every image |
| Liveness.LivenessAnalyzer.Update | howdy/src/onnx_face.py:461-490 | a face adds its vote and, against the face before it, its ratio if there was enough motion |
| Liveness.AnalyzedCharacterized | howdy/src/onnx_face.py:425-490 | after any faces the deques hold the last sixteen votes and landmarks, and the ratios of all moving pairs |
| Liveness.RatiosExactly | howdy/src/onnx_face.py:470-490 | what a further face adds to the ratios: residual over motion, if there is a fit and a motion of at least 0.010 |
| Liveness.MedianExactly | howdy/src/onnx_face.py:496-500 | the median is the middle of the sorted ratios, or the mean of the two in the middle |
| Liveness.MedianReachedByHalf | howdy/src/onnx_face.py:496-500 | if the median ratio reaches the bound, at least half of the ratios do |
| Liveness.LiveCharacterized | howdy/src/onnx_face.py:492-503 | the verdict is live exactly with a strict majority of the last min(16, n) votes, three moving pairs and a median of at least 0.05, and then at least four faces were processed |
| Liveness.VerifyUser | howdy/src/onnx_face.py:546-609 | the first turn that ends the loop decides; otherwise too dark exactly if there were pictures and none was valid, an attack exactly if PAD is on and some processed face reached the certainty or this is at most -1, else a timeout |
| Liveness.AttackCharacterized | howdy/src/onnx_face.py:567-609 | with a certainty above -1, PRESENTATION_ATTACK is reported exactly if the deadline is reached, PAD is on and some processed face reached the certainty |
| Liveness.SuccessIsLive | howdy/src/onnx_face.py:567-601 | SUCCESS is reported exactly if some turn is accepted before any cancel; with PAD on there were then at least four processed faces, a strict live majority of the last min(16, n) votes and a median ratio of at least 0.05 |
| Liveness.AcceptsExactly | howdy/src/onnx_face.py:558-601 | which turns are accepted: a picture that is not too dark, a face that reaches the certainty and, with PAD on, the majority, the three pairs and the median of 0.05 |
| Liveness.OtherStatuses | howdy/src/onnx_face.py:546-609 | ABORT exactly if a cancel comes first, TOO_DARK exactly if there were pictures and all were dark |

## Left out

- Reports that are not exactly 64 bytes long, and more than one feeding thread; `howdy/src/webauthn/service.py:93-99` reads whole reports in one thread.
- The `_worker` field of the transport, which is written and never read.
- NonInterference: the answers of the busy check are kept with the reports, since a transaction on another channel does refuse messages; IdleNonInterference is about the device itself while no transaction is active.
- The preliminaries of `identify` before the spawn (configuration, lid and SSH checks, user name, conversation), its messages, and the device behind the fake Enter key.
- The signal that ends the compare process, whose effect is that any wait status is possible, and the reuse of its process id.
- Text that the base64 decoder of Python would accept although the encoder never writes it (characters outside the alphabet, surplus padding).
- The JSON text of the store, file modes, the directory, and a power loss that undoes a completed rename: the store file is missing, unreadable or a list of records, and a rename is atomic and durable.
- CtapHidCancels: a handler may call verify any number of times, one after the other, and what it answers is left open; AuthenticatorGate.CallIsGated says what handle_cbor makes of a result.
- Linearizable: for the operations that change the file; find_by_id and find_for_rp read the cached list, which is stale until the next change (CachesFollow), and are characterized on that list only.
- Credential objects shared between a cached list and a caller: credentials are values, so a caller's copy never changes.
- CountersNeverRepeat: that no process ever adds an id twice is assumed, as ids are 16 random bytes; so it is in CountersStrictlyIncrease, while AuthenticatorCalm asks only for new ids in the calls of the run.
- MakeNew: user and relying party names that are neither absent nor text end the call with an error before anything is stored, where the code stores numbers, lists and maps as they are and fails in the JSON encoder on byte strings.
- MadeIsStored: the same names count as malformed.
- Handle: the same for the makeCredential that it dispatches to.
- Cryptography, CBOR encoding and decoding, hashing of relying party ids, AAGUID and getInfo's contents; numbers in requests are compared by value.
- The commands of CTAP 2.1 that the authenticator does not implement, beyond the errors they get.
- OnnxBoundVerifier, whose cancellation is an event polled between frames.
- Face detection, landmarks, embeddings, affine fits, contrast equalization and floating-point rounding: what they give per frame is an input, and numbers are real.
- LbpHistogram: the raw counts, not their division by the sum, and images of at least 3 by 3 pixels, where the code gets 112 by 112.
- The enrolment loop of the ONNX pipeline, the hotkey stamp, the command line, the GTK interface and the camera readers.
