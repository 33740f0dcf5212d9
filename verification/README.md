# fp: a verified model of its protocols

`fp` is an identity platform with an instant-messaging gateway. Much of what it promises is kept by small protocols
that several requests, several Redis keys with expiries and several processes run at the same time. This project
models those protocols in Dafny and proves what they keep in every run.

Two shapes are used throughout.

* **Code that works step by step** is a class or a method with the source's own loops and branches, proved equal to a
  specification function (`Delivered`, `Validate`, `Ensured`, `Linked`, `Added`, ...).
* **Protocols that interleave** are state machines: one action per database or Redis operation (or critical section),
  a total `Apply` in which an action that is not possible changes nothing, `Run` over an arbitrary list of actions, an
  invariant kept by every step, and theorems about every reachable state. Some fields are history, kept to state a
  theorem; the comment at each state says which.

What must not happen is stated over every run; what must happen is stated beside it, in terms of the stored data alone:
which step does what exactly, what a step leaves alone, and the runs that end as promised.

Run `dafny verify dfyconfig.toml` in this directory.

| file | what it covers |
|---|---|
| `Varint`, `Envelope` | the node-to-node message codec |
| `Deliver`, `DeliverLaws` | forwarding one message across nodes along a fixed candidate list |
| `ConnTable` | the hub's connection table, its events and the shutdown counter |
| `SessionPolicy`, `Sessions`, `SessionRuns`, `SessionAnswers`, `SessionIndex` | session tokens: issue, extend, rotate, expire, what is answered, list |
| `RevokeBatch`, `RevokeRace` | bulk revocation and its announcements under store failures; revoking a session that is being validated |
| `EpochFence`, `AdminFence`, `AdminPayload` | logins racing with freezes, resets and console account changes |
| `SdkCache`, `SdkCacheLaws` | the SDK's validation cache racing with revocation pushes |
| `AccountLink`, `AccountRows` | the identity table and account merging, row by row |
| `NotifyLease` | the idempotency lease of notifications |
| `OAuthFlow`, `OAuthExact`, `OAuthSteps` | scan-to-login: state, callback, ticket, phone binding; when a second login is possible; the runs that log in |
| `LoginCode` | SMS login codes and their attempt counter |
| `Nonce` | replay protection of signed requests |
| `Runner` | the batching Redis runner |
| `RoleGraph`, `Policy` | role inheritance, compiled policies, the decision |

## Where the code falls short of its promise

Each of these is proved by a run or an input on which the promise fails, and by the exact condition, an if and only if
over all runs or inputs, under which it holds.

* A route of 65536 candidates or more wraps the uint16 cursor, and a node can publish to itself without end
  (`Deliver.WrappedCursorLoops`). Forwarding is "first match in the route" in every environment exactly up to 65535
  candidates (`Deliver.FirstMatchIffCursorFits`).
* `Put` says the user index never expires before a session it lists. It resets the index's expiry from the new
  session's ttl alone. Under the default policy a desktop login after a mobile one unlists the 30-day mobile session
  after seven days (`SessionIndex.DesktopLoginUnlistsMobile`), and one mobile session that merely rotates unlists itself,
  because the predecessor is stored last, with the grace period (`SessionIndex.RotationUnlistsMobile`). Exactly when:
  `SessionIndex.PutKeepsCoverIff`, `SessionIndex.RotationKeepsCoverIff`; with idle timeouts of at most seven days never
  (`SessionIndex.ShortIdleKeepsCover`).
* Revoking one session bumps no epoch, so a validation that fetched the session before the sweep deleted it can store it
  again (`RevokeRace.RevokedComesBack`); a revoked session can validate again exactly while such a validation is under
  way and can yet extend or rotate it (`RevokeRace.RevokedRevivesExactly`).
* After a `RemoveConn` that gave up waiting, `UnsettledConns()` can be 0 with an event still to come
  (`ConnTable.TimeoutLeavesAnEvent`); the connections concerned are exactly those whose Connected is still being handled
  (`ConnTable.SettledMeansDone`).
* A signed request is accepted a second time at exactly timestamp + 900 s, and earlier by its own clock reading if it
  was held between reading the clock and recording its nonce (`Nonce.ReplayAtTheBoundary`,
  `Nonce.StaleReadingReplays`; exactly when: `Nonce.PromptReplayExact`, `Nonce.ReplayExact`).
* An OAuth callback that stalls after reading the state until the done mark has expired can complete a second login
  (`OAuthExact.OneStateLogsInTwice`); after a login another one can follow exactly while such a callback, and in
  poll mode such a poll too, is still under way (`OAuthExact.SecondLoginExactly`), and a second claim succeeds exactly
  300 s or more after the one before (`OAuthFlow.ClaimExact`).
* `LinkPhone` deletes the very phone row it linked when that row carries the union key of a replaced identity
  (`AccountLink.PhoneCanBeLost`; exactly when: `AccountLink.PhoneStaysExactlyWhenSafe`). No caller reaches this: phone
  rows are only ever written without a union key, and then the phone number always stays
  (`AccountLink.LinkedPhoneStays`).
* The cycle check looks 64 roles up and nothing limits the depth, so a long enough line hides a cycle
  (`RoleGraph.DeepLineHidesACycle`; exactly when: `RoleGraph.MissedExactlyBeyondDepth`). The check and the write are two
  statements, so two updates that are harmless alone can close a cycle together (`RoleGraph.OverlappingUpdatesOccur`),
  exactly when each moved role is above the other's new parent (`RoleGraph.OverlappingUpdatesCycle`).
* Flattening stops after 64 roles: a nearer word is never missed, one 64 or more steps up always is
  (`Policy.FarDenyIsLost`; exactly when: `Policy.FlatteningExact`, and for the decision `Policy.DecisionExact`).

## Model

| member | source | states |
|---|---|---|
| Varint.Append | internal/im/bus/envelope.go:54-73 | writing a length prefix appends exactly its Base 128 encoding |
| Varint.Uvarint | internal/im/bus/envelope.go:78-138 | the loop behind reading a length prefix computes the recursive definition, including truncated and overlong input |
| Varint.RoundTrip | internal/im/bus/envelope.go:54-138 | a written 64-bit length reads back as itself with its own width, whatever follows it |
| Varint.Canonical | internal/im/bus/envelope.go:78-138 | a length that was read fits 64 bits and its own encoding is never longer than the bytes read |
| Varint.WrittenLeastFirst | internal/im/bus/envelope.go:54-73 | seven bits a byte, least significant first, the high bit on every byte but the last, no byte more than needed |
| Envelope.Encode | internal/im/bus/envelope.go:54-73 | the appends produce type, cursor, four texts, route and payload, each with its length prefix |
| Envelope.Decode | internal/im/bus/envelope.go:78-138 | on any bytes the decoder stays in range, yields what the grammar says or refuses, and never sizes the route beyond the input |
| Envelope.DecodeEncode | internal/im/bus/envelope.go:54-138 | decoding an encoded envelope gives it back (nil and empty route or payload identified), and anything appended makes it refused |
| Envelope.RoundTripExact | internal/im/bus/envelope.go:54-138 | for envelopes in normal form the round trip is the identity |
| Envelope.EncodeInjective | internal/im/bus/envelope.go:54-73 | two envelopes with the same bytes are the same envelope |
| Envelope.EncodeDecode | internal/im/bus/envelope.go:78-138 | re-encoding what was decoded is never longer, and is the same bytes when it is as long |
| Envelope.LaidOut | internal/im/bus/envelope.go:54-73 | the layout on the wire: type, cursor high byte first, the four texts, the route and the payload in this order, each behind its length |
| Envelope.NamesLaidOut | internal/im/bus/envelope.go:66-70 | the route's names one after the other, each behind its length |
| Deliver.Hub.Deliver | internal/im/hub/deliver.go:33-84 | one call's result, stream writes with what they say, publishes in order and dropped nodes equal the specification, whose meaning without its own predicates is DeliverLaws.OwnStreamTakesIt, DroppedExactly and WhatOkMeans |
| Deliver.Hub.TryCandidates | internal/im/hub/deliver.go:67-84 | the cursor loop publishes along the route from the cursor, stops at the first receiver, drops nodes nobody listens on |
| Deliver.Hub.Candidates | internal/im/hub/deliver.go:49-60 | the snapshot without the node itself, in order, the snapshot untouched |
| Deliver.WalkIsPrefix | internal/im/hub/deliver.go:67-84 | one node publishes to every position up to the first subscribed one and hands on exactly there |
| Deliver.ChainIsFirstMatch | internal/im/hub/deliver.go:33-84 | the chain of calls over all nodes, every hop through the codec, equals "first subscribed node of the route that has a stream" (spelled out in DeliverLaws.RestOfTheJourney) |
| Deliver.DeliveredAtMostOnce | internal/im/hub/deliver.go:33-84 | a fresh message attempts at most one stream write, at the origin or the first match; no node is published to twice, cursors only grow, only the origin ranks |
| Deliver.RankedCandidates | internal/im/hub/deliver.go:49-65 | any ranking of distinct nodes minus the node itself is a route without repeats and without the origin |
| Deliver.ReportedSuccess | internal/im/hub/deliver.go:33-84 | what the origin's return value means: its own stream took it, or some candidate was subscribed (spelled out in DeliverLaws.OwnStreamTakesIt and WhatOkMeans) |
| Deliver.CursorExact | internal/im/hub/deliver.go:69 | the cursor names the next position for every candidate if and only if there are at most 65535 |
| Deliver.WrappedCursorLoops | internal/im/hub/deliver.go:67-84 | with 65536 candidates or more the message comes back to the node that sent it, unchanged |
| Deliver.FirstMatchIffCursorFits | internal/im/hub/deliver.go:67-84 | the chain over all nodes ends and is "first match" in every environment if and only if there are at most 65535 candidates |
| Deliver.ForwardedTravels | internal/im/hub/hub.go:380-391 | what a node hands on survives the codec unchanged, with the same route and a larger cursor, so the next node's dispatch delivers it further and what is left of the route shrinks |
| DeliverLaws.OwnStreamTakesIt | internal/im/hub/deliver.go:34-48 | a node with a stream writes a client message there once, whatever its payload, and an event exactly if its payload parses, with subject, connection and payload unchanged; it succeeds exactly if the stream takes it, and publishes nothing |
| DeliverLaws.StreamsTakeTurns | internal/im/hub/hub.go:279-287 | every stream of a node is chosen for some hash, hash by hash in turn |
| DeliverLaws.SameHashSameStream | internal/im/hub/hub.go:279-287 | two messages under one hash go to one stream, whatever else differs |
| DeliverLaws.DroppedExactly | internal/im/hub/deliver.go:67-84 | dropped are exactly the nodes reached before the stop that answered with no subscriber; a failed publish drops nobody |
| DeliverLaws.JourneyOfAMessage | internal/im/hub/deliver.go:33-84 | a fresh message the origin cannot write is written by the first node of the ranking that receives it and has a stream, in the origin's words, and by no other; what is published on the way is the message with the ranking and the next cursor |
| DeliverLaws.RestOfTheJourney | internal/im/hub/deliver.go:67-84 | the same from any node in the middle of a route, from its cursor on |
| DeliverLaws.WhatOkMeans | internal/im/hub/deliver.go:67-84 | an origin without a stream reports success if and only if some candidate received the publish |
| DeliverLaws.CandidatesPieceByPiece | internal/im/hub/deliver.go:54-59 | the candidates are the snapshot in order without the node itself |
| ConnTable.EventsInOrder | internal/im/hub/hub.go:133-230 | in every interleaving a connection's events are a prefix of Connected, Disconnected, the latter only after a delivered Connected |
| ConnTable.SettledMeansDone | internal/im/hub/hub.go:359-367 | when the counter is 0 no removal is at work, and a connection has an event left in some continuation if and only if its Connected is not handled yet; those are removals that gave up waiting |
| ConnTable.TimeoutLeavesAnEvent | internal/im/hub/hub.go:216-221 | in every reachable state a removal that gives up leaves the count with its connection's Connected still to come |
| ConnTable.Table.Add | internal/im/hub/hub.go:145-153 | registers one entry in the nested map, appends it to its token's list, and touches no other |
| ConnTable.Table.Take | internal/im/hub/hub.go:169-201 | removes exactly that entry from the map and from its token's list, and counts the teardown, once |
| ConnTable.WithoutKeepsTheRest | internal/im/hub/hub.go:184-190 | the rebuilt list of a token holds every connection of the old one but the removed one |
| ConnTable.Table.UnsettledConns | internal/im/hub/hub.go:363-367 | the loop over the nested map counts registered connections plus running teardowns |
| SessionIndex.PutKeepsCoverIff | internal/store/session.go:42-75 | storing a session keeps the user's listing complete if and only if no other live session outlasts both the new one and seven days |
| SessionIndex.ListFollowsTheSessions | internal/store/session.go:52-155 | a store adds the token to its user's list, for seven days or its own ttl if longer, and touches no other user; a delete takes exactly that token off |
| SessionIndex.RotationKeepsCoverIff | internal/service/session.go:286-318 | a rotation keeps the listing complete if and only if neither the successor nor any other live session outlasts the grace period and seven days |
| SessionIndex.EqualTtlsKeepCover | internal/store/session.go:52-75 | any ordered run of stores with one ttl keeps every user's listing complete |
| SessionIndex.ShortIdleKeepsCover | internal/store/session.go:42-75 | under a policy with idle timeouts of at most seven days every live session is listed in every run of logins, validations, revocations and bumps |
| SessionIndex.DesktopLoginUnlistsMobile | internal/domain/application.go:29-38 | under the default policy a desktop login leads to a mobile session that validates and is not listed |
| SessionIndex.RotationUnlistsMobile | internal/service/session.go:293-318 | under the default policy a rotation alone does |
| Sessions.Service.StorePut | internal/store/session.go:52-75 | refuses a ttl that is not positive, otherwise stores the session with that expiry and adds it to the user's index with an expiry of its own |
| Sessions.Service.StoreDelete | internal/store/session.go:94-110 | deletes the key, and the index entry of the user it still names |
| Sessions.Service.TryExtend | internal/service/session.go:230-250 | lock, new idle expiry, store: equals the specification for every reading of the clock after it |
| Sessions.Service.TryRotate | internal/service/session.go:261-321 | lock, successor, mapping, shortened predecessor, or the loser's lookup: equals the specification |
| Sessions.Service.ValidateToken | internal/service/session.go:140-224 | every branch of validation, its verdict and its effect on all keys equal the specification, whose meaning is SessionAnswers.AcceptedExactly, ReportsTheStoredSession, WhichAnswer and OthersAreLeftAlone |
| Sessions.Service.Issue | internal/service/session.go:60-98 | a login stores exactly the new session, or nothing |
| SessionRuns.CheckCases | internal/service/session.go:140-321 | under a valid policy a validation rotates, extends, drops or leaves everything, accepts exactly live unfenced sessions and never fails internally |
| SessionRuns.AtMostTwoValidate | internal/service/session.go:184-321 | at any instant of any run at most two tokens of one session validate |
| SessionRuns.SupersededReportsItsSuccessor | internal/service/session.go:261-321 | a superseded token is never extended or rotated again and every accepted validation of it reports the one successor |
| SessionRuns.LifetimeIsBounded | internal/domain/session.go:50-65 | no number of extensions and rotations lets a token validate at login time plus max_lifetime or later |
| SessionRuns.CacheTtlIsSafe | internal/service/session.go:575-581 | the granted cache time ends no later than the presented token and its key, and no store call ever gets a ttl that is not positive |
| SessionRuns.GraceIsExact | internal/service/session.go:116-134 | after a rotation the old token's session and key end together, one grace period later, and the new token carries id, login time and epoch over |
| SessionRuns.NeverAfterGrace | internal/service/session.go:261-321 | from then on the rotated token never validates again, in any run |
| SessionAnswers.AcceptedExactly | internal/service/session.go:140-180 | accepted if and only if the key is there, the application is the session's, its epoch its user's, and neither timeout is over; otherwise unauthorized, deleting the session exactly if only the epoch is wrong |
| SessionAnswers.ReportsTheStoredSession | internal/service/session.go:182-224 | every accepted validation reports id, user, application, login time, device and epoch of the session stored under the presented token, as stored afterwards, and exactly the cache time min(token_cache_ttl, what is left of the reported session) |
| SessionAnswers.WhichAnswer | internal/service/session.go:184-224 | which of the four answers: a superseded token its session and successor; one due for rotation the session under a new token; one due for extension the session with a new idle timeout; any other the session as stored, no new token and no change |
| SessionAnswers.TakesTheLock | internal/service/session.go:230-292 | a rotation leaves the session's lock and the mapping for a grace period, an extension the token's lock for ten seconds |
| SessionAnswers.OthersAreLeftAlone | internal/service/session.go:140-321 | a validation changes no session but the presented token's and the new one's |
| SessionAnswers.ValidatesUntilExpiry | internal/domain/session.go:50-65 | whatever else runs, a stored token of the current epoch validates for its own user and application exactly until its idle timeout or its lifetime is over |
| SessionAnswers.LoginStores | internal/service/session.go:60-98 | a login's token validates at once, for the user, application and device it was made for, with both timeouts counted from the login |
| SessionAnswers.SuccessorIsSettled | internal/service/session.go:261-321 | after a rotation the new token validates until its own timeouts, and is neither rotated nor extended again within its intervals |
| SessionAnswers.RotatedTokenLastsItsGrace | internal/service/session.go:116-134 | the rotated token validates for exactly 15 seconds, or token_cache_ttl if longer, its lifetime permitting |
| SessionAnswers.RevokeRemoves | internal/service/session.go:365-384 | a revoked token is refused, and no other session changes |
| SessionAnswers.BumpLogsOutTheUser | internal/service/session.go:160-173 | a bump refuses every session the user has, and nobody else's |
| RevokeBatch.Service.AnnounceBatch | internal/service/session.go:558-569 | publishes the tokens in order in events of at most 1000 |
| RevokeBatch.Service.RevokeUserTokens | internal/service/session.go:512-540 | whichever store call fails, the groups hold exactly what was deleted so far; without a failure nothing that is indexed and matches survives |
| RevokeBatch.Service.RevokeMatching | internal/service/session.go:444-489 | for every failure point: announced equals deleted, each token once and under its own app; the count is the number deleted |
| RevokeBatch.Service.RevokedCount | internal/service/session.go:492-498 | the sum over the groups is the number of deleted tokens |
| RevokeBatch.Store.ListUserTokens | internal/store/session.go:113-155 | lists the indexed tokens whose session still exists, each once |
| RevokeBatch.ChunksLaw | internal/service/session.go:357-357 | cutting into events loses, repeats and reorders nothing, names one app, and no event is empty or above 1000 |
| RevokeBatch.AnnouncedExactlyDeleted | internal/service/session.go:444-489 | token by token: announced under an app if and only if deleted and of that app |
| RevokeRace.RevivableExactly | internal/service/session.go:140-321 | from any state a token of a session can validate in some continuation if and only if one validates now or a validation under way can yet extend or rotate it |
| RevokeRace.ValidatesIsTheSteps | internal/service/session.go:140-321 | the steps of a validation, run without pause, end accepted if and only if the predicate the results are stated with holds |
| RevokeRace.RevokedRevivesExactly | internal/service/session.go:365-390 | after a sweep, if and only if a validation that fetched the session before can: same epoch, due at some reading, lock free in time |
| RevokeRace.RevokedForGood | internal/service/session.go:365-390 | with no validation of it under way a revoked session never validates again |
| RevokeRace.RevokedComesBack | internal/service/session.go:230-250 | under any policy it does come back if and only if something is extended or rotated before the maximal lifetime |
| EpochFence.FenceHolds | internal/service/account.go:58-94 | once a freeze (or a reset, for logins that saw the old password) has bumped the epoch, the comparison step of every validation that has fetched any token ever handed out rejects it and deletes the token, and that validation stays rejected in every continuation |
| EpochFence.BumpRefusesWhatIsStamped | internal/service/account.go:110-124 | a bump makes the comparison step refuse every token stamped before it for good, handed out yet or not |
| EpochFence.BumpRefusesLoginsUnderWay | internal/service/account.go:104-124 | and every token a login stores afterwards that had read its epoch before |
| EpochFence.ComparedExactly | internal/service/session.go:160-173 | an equal stamp passes and touches nothing else; any other stamp ends the validation and deletes exactly the presented token |
| EpochFence.RejectedForGood | internal/service/session.go:160-173 | a rejected validation stays rejected and never stores anything, in every continuation |
| EpochFence.StoredOnlyByPassed | internal/service/session.go:182-321 | a token comes into the store only from a login or from a validation that passed the comparison |
| EpochFence.RemovedOnlyWhenTurnedAway | internal/service/auth.go:285-320 | and leaves it only by its own deletion, a failed comparison of its own or a failed recheck of its own login |
| EpochFence.UndisturbedLogin | internal/service/auth.go:165-301 | a login of an active account that nothing interferes with hands out a token of the current epoch |
| EpochFence.UndisturbedCheck | internal/service/session.go:140-224 | a stored token of the current epoch passes, and its rotation hands out a successor under the same stamp |
| EpochFence.RecheckExactly | internal/service/auth.go:285-301 | the token is handed out if and only if the account is still active under the password the login saw; otherwise it is deleted |
| EpochFence.RotationInheritsStamp | internal/service/session.go:261-321 | a rotation keeps the stamp of the login it goes back to |
| EpochFence.BumpBeforeWriteWouldLeak | internal/service/auth.go:285-301 | why the order is write, then bump: the other order lets a login validate on a frozen account |
| AdminFence.ReplacedPasswordIsLoggedOut | internal/service/admin.go:95-202 | once a change or reset has ended a row version, from its INCR on every Authenticate that then compares the epoch rejects every token of a login that verified that version, whenever issued or fetched, in every interleaving |
| AdminFence.WhatEndsAVersion | internal/service/admin.go:226-381 | a version ends if and only if a change loaded exactly it and sets a new password, or a reset commits; nothing else ends one |
| AdminFence.IncrLogsOutEverySession | internal/service/admin.go:214-226 | every completed change or reset logs out all sessions stored by then, for good |
| AdminFence.ComparedExactly | internal/service/admin.go:154-203 | the comparison accepts exactly payloads of the current epoch |
| AdminFence.CurrentSessionAuthenticates | internal/service/admin.go:154-203 | a session of the current epoch authenticates through any run in which no operation reaches its INCR |
| AdminFence.UndisturbedLogin | internal/service/admin.go:95-151 | a login on an active row stores a session of the current epoch for that row version |
| AdminFence.ChangeWrites | internal/service/admin.go:226-318 | a change that loaded the version in force installs the new password on that row only; otherwise it fails and writes nothing |
| AdminFence.ResetWrites | internal/service/admin.go:319-381 | a reset leaves the kept row as the only active one, under a new password |
| AdminPayload.TakenWritten | internal/service/admin.go:141-202 | id, name and epoch come back from the stored payload for every username, separators included |
| AdminPayload.OldFormRefused | internal/service/admin.go:170-190 | the old payload form is refused, except exactly when the name itself ends like an epoch |
| SdkCache.Cache.Get | sdk/cache.go:132-156 | fresh, stale or miss by age at reading time; the entry becomes the most recently used, an expired one is removed |
| SdkCache.Cache.Put | sdk/cache.go:99-106 | a ttl of zero or less stores nothing; a new token in a full table pushes out the least recently used one |
| SdkCache.Cache.PutIfGen | sdk/cache.go:114-119 | an answer from an older generation stores nothing |
| SdkCache.Cache.Drop | sdk/cache.go:162-167 | bumps the generation, removes exactly the named tokens and keeps every other entry |
| SdkCache.Cache.Purge | sdk/cache.go:171-174 | bumps the generation and empties the table |
| SdkCache.FreshIsCurrent | sdk/auth.go:118-163 | in every interleaving a fresh answer comes from a validation started after the generation bump of every finished purge and of every finished removal naming the token, and is younger than ttl and cap |
| SdkCache.RefusalReachesEveryCache | sdk/cache.go:121-156 | a token refused from T on is nowhere fresh at T + delay + ttl, even if every push is lost |
| SdkCache.OvertakenAnswerIsDiscarded | sdk/auth.go:127-163 | an answer under way when anything was dropped never enters the cache |
| SdkCacheLaws.LookedUpExactly | sdk/cache.go:121-156 | fresh exactly while younger than the ttl and, if given, the cap; stale exactly for maxStale more; the entry returned is the stored one |
| SdkCacheLaws.AnswerEntersExactly | sdk/cache.go:114-119 | in every run an answer in time enters the cache, as its token's entry, if and only if a time was granted and nothing was invalidated since its fetch began; no other entry changes |
| SdkCacheLaws.ServedUntilExpiry | sdk/cache.go:132-156 | an entry is served unchanged until its ttl is over, whatever happens to other tokens |
| SdkCacheLaws.InvalidationRemoves | sdk/cache.go:162-174 | each removal takes out what it names and nothing else |
| SdkCacheLaws.LeastRecentlyUsedGoes | sdk/cache.go:99-106 | in every run a new token in a full table pushes out exactly the token looked up or stored the longest time ago; otherwise storing loses nothing |
| AccountLink.UserService.EnsureUserWithIdentity | internal/service/user.go:131-189 | reuse by identity, else merge by union key, else a new user; keeps the table sound |
| AccountLink.UserService.AttachIdentity | internal/service/user.go:193-236 | refuses a union key of another account and a taken identity; keeps the table sound |
| AccountLink.UserService.LinkPhone | internal/service/user_link.go:57-143 | the whole transaction, its loop over replaced identities included, equals the specification, whose rows are stated one by one in AccountRows; keeps the table sound |
| AccountLink.UserService.FindThirdPartyOwner | internal/service/user_link.go:146-166 | by identity first, then by union key |
| AccountLink.RunKeepsSound | internal/service/user.go:208-227 | every sequence of the three transactions keeps (type, subject) unique and every union key on one user |
| AccountLink.OwnerIsUnambiguous | internal/service/user_link.go:157-165 | whichever row LIMIT 1 picks, the owner is the same |
| AccountLink.MergesByUnionKey | internal/service/user.go:104-111 | a new identity joins its union key's user, a known one keeps its own |
| AccountLink.EnsuredIsHeld | internal/service/user.go:104-129 | a login ends with the identity on the returned user, repeats give that user again, and a user is created if and only if neither identity nor union key is known |
| AccountLink.AttachConflictsExactly | internal/service/user.go:191-236 | a conflict if and only if the identity is taken or the union key stands for another user |
| AccountLink.LinkMovesTheIdentity | internal/service/user_link.go:30-38 | afterwards the returned account holds the third-party identity (with its union key: AccountRows.LinkWritesTheIdentity), no other of its type, and no other account its subject, its union key or the union key of its row |
| AccountLink.PhoneStaysExactlyWhenSafe | internal/service/user_link.go:98-119 | the phone row is on the returned account afterwards if and only if no replaced identity shares its union key (or the identity is that phone) |
| AccountLink.PhoneCanBeLost | internal/service/user_link.go:104-119 | a phone row under a replaced third party's union key is gone afterwards |
| AccountLink.LinkedPhoneStays | internal/service/user_link.go:57-143 | as long as no phone row is given a union key, the linked phone number is always on the returned account |
| AccountLink.OthersKeepTheRest | internal/service/user_link.go:121-126 | another account loses exactly the identity being moved |
| AccountRows.EnsureWrites | internal/service/user.go:131-189 | a new identity adds exactly its row, union key included, to the returned user; every other row stays; a created user is new |
| AccountRows.AttachWrites | internal/service/user.go:193-236 | attaching adds exactly that row to that user, or refuses, exactly when it must, and changes nothing |
| AccountRows.AddedKeyIsFound | internal/service/user.go:150-180 | once an identity came in with a union key, a login with any new identity under it is the same user's |
| AccountRows.LinkChoosesTheAccount | internal/service/user_link.go:75-96 | the phone number's account, else the identity's, else its union key's, else a new one |
| AccountRows.LinkKeepsExactly | internal/service/user_link.go:98-126 | which rows stay: on the account all but other identities of the type and what stands under their union keys; elsewhere all but the identity and its union key |
| AccountRows.ReportedAreDisplaced | internal/service/user_link.go:98-119 | what is reported as replaced are exactly those rows of the account |
| AccountRows.LinkAddsOnly | internal/service/user_link.go:84-131 | nothing is added but the phone row and the third-party row with its union key |
| AccountRows.LinkWritesTheIdentity | internal/service/user_link.go:128-131 | an identity not seen before comes in as exactly one row with its union key, the account's only one of its type; a known one keeps its row or is written anew |
| AccountRows.LinkedKeyIsFound | internal/service/user_link.go:128-131 | the next login with any new identity under that union key is the same account |
| NotifyLease.OthersMarksAreSafe | internal/service/notify_send.go:131-223 | a live mark stays as it is through any run of other requests, short of a recorded success |
| NotifyLease.DoneBlocksForADay | internal/service/notify_send.go:150-223 | once a success is recorded, no request begins dispatching under the key for 24 hours, in every run |
| NotifyLease.OneMessageADay | internal/service/notify_send.go:261-305 | if no mark runs out under its dispatching holder, dispatches never overlap and any two messages are 24 hours apart |
| NotifyLease.LimitsKeepLeases | internal/service/notify_send.go:20-41 | the time limits of the code imply that hypothesis as long as every renewal reaches Redis, however many providers are tried |
| NotifyLease.ExpiredMarkOverlaps | internal/service/notify_send.go:28-31 | without it dispatches do overlap |
| NotifyLease.ClaimedExactly | internal/service/notify_send.go:150-166 | a claim gets the key for a minute if and only if no mark lives |
| NotifyLease.LookedExactly | internal/service/notify_send.go:158-177 | the loser is told that the message was sent, or that another request is at it, or claims once more if the mark is gone |
| NotifyLease.RenewedExactly | internal/service/notify_send.go:179-199 | a renewal gives the request's own live mark a full minute again and touches no other |
| NotifyLease.FailureFreesTheKey | internal/service/notify_send.go:200-223 | after all providers failed the next claim gets the key at once; another request's mark stays |
| NotifyLease.UndisturbedIsSent | internal/service/notify_send.go:261-305 | a request that nothing interferes with is sent once and recorded for a day; after a failed attempt it still holds the key for the next |
| NotifyLease.ThenAlreadySent | internal/service/notify_send.go:150-177 | for 24 hours after a success every request that arrives is told so |
| OAuthFlow.AtMostOneLogin | internal/service/auth_oauth.go:145-370 | every state leads to at most one login unless two callbacks of it were claimed, and every login is for the app that started it |
| OAuthFlow.ClaimExact | internal/service/oauth_store.go:88-95 | a callback that read the state is claimed if and only if none was before or 300 s have passed since the latest claim; otherwise it ends changing nothing |
| OAuthExact.LoginPossibleExactly | internal/service/auth_oauth.go:145-370 | from any state of the system a login can still follow if and only if some request, live ticket, result, state or callback can lead to it, in poll mode a callback and a poll (that the ordinary steps do lead to it: OAuthSteps) |
| OAuthExact.SecondLoginExactly | internal/service/auth_oauth.go:145-370 | after a login of a state claimed once, another can follow if and only if a callback that read the state is still under way, and in poll mode a poll as well |
| OAuthFlow.StalledReached | internal/service/auth_oauth.go:145-237 | the first login of the counterexample is an ordinary web login |
| OAuthExact.StalledCallbackLogsInAgain | internal/service/auth_oauth.go:150-165 | from there the stalled callback completes a second login |
| OAuthExact.OneStateLogsInTwice | internal/service/auth_oauth.go:145-237 | some run from the start completes two logins of one state |
| OAuthSteps.PendingPollChangesNothing | internal/service/auth_oauth.go:240-265 | a poll that finds no live result does nothing but end |
| OAuthSteps.EarlyPollsChangeNothing | internal/service/auth_oauth.go:240-265 | any number of polls before there is a result leave everything as it was but the time |
| OAuthSteps.ReadableFor300Seconds | internal/service/oauth_store.go:75-87 | a started state can be read by every callback, and in poll mode by its application's polls, for exactly 300 s in every run with no finish outside poll mode and no poll that takes its result |
| OAuthSteps.StatesChangeOnlyBy | internal/service/oauth_store.go:75-115 | a state comes from its own start only and goes by nothing but those two steps |
| OAuthSteps.CallbackSucceeds | internal/service/auth_oauth.go:145-218 | an undisturbed callback leaves in poll mode its result beside the state for 300 s, otherwise a ticket for the starting application for 120 s and no state |
| OAuthSteps.FailedCallbackLogsNobodyIn | internal/service/auth_oauth.go:145-265 | a callback that fails makes no ticket; in poll mode the poll that takes its result ends the state and holds nothing |
| OAuthSteps.TicketLogsIn | internal/service/auth_oauth.go:220-238 | a ticket presented in time by its application logs in once and is used up |
| OAuthSteps.WrongAppGetsNothing | internal/service/auth_oauth.go:220-238 | presented by another application it is used up and gives nothing |
| OAuthSteps.PhoneLogsIn | internal/service/auth_oauth.go:267-370 | an outcome that needs a phone logs in by its bind ticket within 600 s |
| OAuthSteps.ScanLogsIn | internal/service/auth_oauth.go:91-316 | the ordinary scan, whatever ran before: start, any number of early polls, a callback that succeeds and one more poll within 300 s log in exactly once |
| LoginCode.Store.Issue | internal/service/logincode.go:51-64 | the script: keep and renew a code with attempts left, replace otherwise |
| LoginCode.Store.Verify | internal/service/logincode.go:70-88 | the script: count, then refuse, match or mismatch |
| LoginCode.FiveAttemptsOneLogin | internal/service/logincode.go:143-175 | in every timed run each code is compared at most 5 times and accepted at most once |
| LoginCode.CounterOutlivesCode | internal/service/logincode.go:43-50 | the counter never expires before the code it counts for |
| LoginCode.ReplacedOnlyWhenUsedUp | internal/service/logincode.go:136-157 | a live code is replaced if and only if its five attempts are used up |
| LoginCode.RightCodeIsAccepted | internal/service/logincode.go:159-175 | accepted if and only if live, equal and compared fewer than five times |
| LoginCode.AcceptedIsSpent | internal/service/logincode.go:83-86 | after a success, through any run without an issue, no code is compared |
| LoginCode.AnsweredExactly | internal/service/logincode.go:70-88 | when each of the four answers is given, in every run, and what it leaves: a mismatch keeps the code and its expiry and counts one comparison |
| LoginCode.WrongGuessesLeaveTheCode | internal/service/logincode.go:70-88 | a live code still logs in after any wrong guesses short of five in all |
| LoginCode.IssuedCodeLogsIn | internal/service/logincode.go:136-175 | the code an issue hands out logs in for five minutes |
| Nonce.NonceStore.Add | sdk/nonce.go:27-45 | used, full or recorded, pruning only when full |
| Nonce.NonceStore.Prune | sdk/nonce.go:34-38 | the loop removes exactly the expired records |
| Nonce.KeysDistinguish | sdk/accesskey.go:67 | the joined key tells access keys and valid nonces apart |
| Nonce.NoLiveRecordEvicted | sdk/nonce.go:25-45 | no unexpired record is ever lost or changed |
| Nonce.ReplayExact | sdk/accesskey.go:39-76 | an accepted request is accepted again if and only if it is recorded at timestamp + 900 s or later, nothing on record for its key outlasts its reading, and there is room |
| Nonce.PromptReplayExact | sdk/accesskey.go:39-76 | judged at the moment it is recorded, if and only if that is the instant timestamp + 900 s, no later timestamp is on record for its key, and there is room |
| Nonce.TableFits | sdk/nonce.go:27-45 | the table never exceeds its capacity |
| Nonce.RecordedExactly | sdk/nonce.go:27-45 | the recording step accepts if and only if no record of the key is unexpired and there is room, counts each acceptance, and records the key until timestamp + 900 s; only expired records go |
| Nonce.ArrivesExactly | sdk/accesskey.go:39-42 | a request passes the window check if and only if its timestamp is within 900 s of the clock, either way |
| Nonce.ReplayAtTheBoundary | sdk/accesskey.go:39-42 | for every request that instant can be reached: with nothing in between, its replay passes |
| Nonce.StaleReadingReplays | sdk/nonce.go:33-43 | some run from the start accepts a request twice by the same reading inside its window |
| Runner.BatchRunner.Submit | internal/im/redisx/runner.go:46-67 | direct, refused, queued or flushing, with the timer armed for the first job only |
| Runner.BatchRunner.Take | internal/im/redisx/runner.go:76-84 | takes everything pending and stops the timer |
| Runner.BatchRunner.FlushByTimer | internal/im/redisx/runner.go:86-91 | a callback takes whatever is pending, even when its own timer was stopped too late |
| Runner.BatchRunner.Flush | internal/im/redisx/runner.go:95-111 | every job of the batch gets one answer |
| Runner.BatchRunner.Close | internal/im/redisx/runner.go:114-120 | closes and takes the rest |
| Runner.BatchesAreTheArrivals | internal/im/redisx/runner.go:46-84 | in every interleaving the batches joined in order, plus what is pending, are the arrivals in order; no batch is empty or oversized |
| Runner.EveryJobIsAnsweredOnce | internal/im/redisx/runner.go:95-111 | answered, owed and pending jobs add up to the arrivals |
| Runner.PendingWillBeTaken | internal/im/redisx/runner.go:57-67 | a pending job always has its timer armed or the callback running, which takes everything |
| Runner.NothingAfterClose | internal/im/redisx/runner.go:113-120 | after Close nothing is accepted, pending or taken again |
| Runner.SubmitExactly | internal/im/redisx/runner.go:46-67 | a job joins the pending ones; they leave as one batch exactly when a flush size above 1 is reached, and the timer is armed exactly for the first |
| Runner.TakesEverything | internal/im/redisx/runner.go:76-120 | a timer's callback and a close take all that is pending as one batch |
| RoleGraph.AuthzService.WouldCycle | internal/service/authz.go:166-184 | the loop says whether the role is among the first 64 of the parent's chain |
| RoleGraph.AuthzService.UpdateRole | internal/service/authz.go:121-159 | accepted exactly under the source's checks, with each refusal's cause; the code is kept, the name and the parent are the new ones and no other role changes; on a parent chain of at most 64 roles an acyclic graph stays acyclic |
| RoleGraph.AuthzService.CreateRole | internal/service/authz.go:93-113 | accepted exactly for a new code under an existing parent other than ADMIN |
| RoleGraph.SetParentWrites | internal/service/authz.go:147-158 | a role keeps its code and gets exactly the new name and parent; no other role changes |
| RoleGraph.CycleIffReached | internal/service/authz.go:161-165 | a new parent keeps the graph acyclic if and only if the role is nowhere up the parent's chain |
| RoleGraph.CheckIsExact | internal/service/authz.go:161-184 | on chains of at most 64 roles the check is exact |
| RoleGraph.MissedExactlyBeyondDepth | internal/service/authz.go:168-183 | in general it never refuses without cause and misses exactly what lies 64 or more steps up |
| RoleGraph.DroppedParentIsAcyclic | internal/service/authz.go:147-149 | clearing a parent keeps the graph acyclic |
| RoleGraph.CreateKeepsAcyclic | internal/service/authz.go:93-113 | creating a role keeps the graph acyclic |
| RoleGraph.DeepLineHidesACycle | internal/service/authz.go:168-183 | any line of more than 64 roles hides a cycle from the check |
| RoleGraph.OverlappingUpdatesCycle | internal/service/authz.go:139-149 | two updates, each harmless alone and both checked before either is written, close a cycle if and only if each moved role is above the other's new parent |
| RoleGraph.OverlappingUpdatesOccur | internal/service/authz.go:139-149 | any two parentless roles moved under each other do: both checks pass, each move alone is harmless |
| Policy.EffectiveFor | internal/service/policy.go:114-127 | the nested loops flatten the first 64 roles, nearest first |
| Policy.EffectiveMeansNearest | internal/service/policy.go:105-127 | on chains of at most 64 roles the flattened effect is the nearest ancestor's |
| Policy.CompilePolicy | internal/service/policy.go:30-80 | one entry per role that has anything to say, deny and allow split, and no other |
| Policy.Compile | sdk/authzcore/authzcore.go:86-104 | entries of one key are merged, none overwritten |
| Policy.CompiledUnites | sdk/authzcore/authzcore.go:86-104 | a compiled set holds exactly what some entry of that key lists |
| Policy.HasAdmin | sdk/authzcore/authzcore.go:41-48 | whether ADMIN is held |
| Policy.AllowWith | sdk/authzcore/authzcore.go:108-140 | ADMIN passes, a held deny refuses, a held allow passes, nothing refuses; also without a snapshot |
| Policy.PipelineIsTheSpec | internal/service/policy.go:14-127 | flattening, compiling and deciding equal the one-line specification on chains of at most 64 roles |
| Policy.Decide | sdk/authzcore/authzcore.go:65-67 | the same for the code itself, all four stages called in turn |
| Policy.FlatteningExact | internal/service/policy.go:105-127 | flattening is right about a role and a permission if and only if the nearest word is not 64 or more steps up |
| Policy.DecisionIsNear | sdk/authzcore/authzcore.go:108-140 | on chains of any length the decision is deny-override over the words within reach |
| Policy.DecisionExact | sdk/authzcore/authzcore.go:108-140 | it meets the one-line specification if and only if the words out of reach do not matter |
| Policy.FarDenyIsLost | internal/service/policy.go:111-117 | a deny 64 steps up is lost |

## Left out

- Atomicity: each database transaction and Redis script is one step, and so is `putIfGen`'s check and write; `AccountLink` takes its three transactions as atomic, so the retry after a unique conflict never fires.
- Operations that fail: only where a property is about failure (`RevokeBatch`, publishes in `Deliver`, renewals in `NotifyLease`); elsewhere Redis and PostgreSQL answer.
- Connections, streams and gRPC: publishes are answered by a fixed environment per message; streams do not come and go during one message.
- DeliverLaws.OwnStreamTakesIt: the fields parsed from an event's payload are one opaque body; whether the payload parses is part of the environment.
- rendezvous.Rank: an arbitrary permutation; the registry's server nodes are arbitrary distinct names; hash32 is an arbitrary number.
- Envelope.Encode: lengths are bounded by what a Go slice can hold; the capacity estimate and allocation are not modelled.
- RevokeBatch.Store.ListUserTokens: does not model removing stale members from the index, which no caller can see.
- SessionRuns.AtMostTwoValidate: Validate is one step here; its interleaving with freezes and resets is in EpochFence, with revocations in RevokeRace.
- RevokeRace.RevivableExactly: the rotation mapping, the index and the app check are not modelled; the mapping is never read by what it states.
- EpochFence.FenceHolds: the revival of an account pending deletion and a later unfreeze legitimately make an account active again and are outside the fence; the password check before the snapshot is not covered, as the source itself says. The actions of the account service are steps of the state machine, not a class.
- AdminFence.ReplacedPasswordIsLoggedOut: how long a console session lives is left open (it may vanish at any step), and EnsureBootstrap is not modelled.
- SdkCache.FreshIsCurrent: for fewer than 2^64 steps, so that the generation does not come round; the scope check on the entry's app, request merging and dropUser (an eviction here) are not modelled.
- AccountLink.UserService.EnsureUserWithIdentity: subjects and union keys come in already trimmed and lower-cased; Unicode normalisation, credentials, nicknames and avatars are left out.
- NotifyLease.OneMessageADay: a crash between delivery and the done mark is excluded; a message a crashed attempt may have sent does not count as delivered.
- NotifyLease: the order of providers and the split of the caller's deadline are not modelled.
- OAuthFlow.AtMostOneLogin: the exchange with the provider, the user lookup and the SMS code are nondeterministic outcomes; the tickets' random names never repeat.
- LoginCode: rate limiting of sends and the delivery of messages are not modelled; a generated code may repeat an earlier one.
- Nonce.ReplayExact: signatures and key lookup are the steps a request may be held in; timestamps are unbounded integers.
- Runner: the choice of the flush interval and the content of a pipeline are not modelled; a caller that stops waiting does not withdraw its job.
- Policy.CompilePolicy: grants come in per application as a map; reading them from the database is left out, as are policy versions and the display names of permissions.
- Cryptography: hashes, tokens and signatures are opaque; random values are distinct.
- HTTP handlers, the web console, notification vendors, SMTP, configuration loading, audit logs and metrics: no property depends on them.
