# Verified models of the chat platform's stateful cores

This project models, in Dafny, the parts of the chat platform whose correctness depends on interleavings, timers, loops or whole runs: the in-memory expiring store and the password-reset protocol on top of it, the call-session protocol, message paging, the push-notification fan-out, friend requests, moderation, the socket registry, the depth-limited log printer, dashboard buckets, upload bookkeeping, direct chats and the timestamp that crosses two services.

`dafny verify dfyconfig.toml` checks everything.

## How it is built

Each module holds three layers.

- A state (a datatype) and the transition functions on it. They are the specification. An asynchronous handler is cut at every `await`; what a suspended call will do next is part of the state (`Proc` in `PasswordReset`, `Task` in `Calls`, `Phase` in `PushNotifications`), so `Run` over an arbitrary event sequence is an arbitrary interleaving. An event that is not possible (a timeout that is not due, a call that is not suspended) leaves the state as it is.
- Lemmas about every step and, by induction, about every run.
- The imperative form: a class with the source's own fields, whose methods are proved to make exactly the specified transition.

Some fields of a state are a history that the code does not keep (OTPs issued and compared, tokens granted, passwords changed, ids drawn, sends settled). They only serve to say what happened.

Outside inputs are parameters: the clock, random draws, the answers of the database about rows outside the model, push-service answers, e-mail. bcrypt is abstract: a hash is the pair of the password and a salt, and a comparison succeeds exactly for the same password. Random draws that must not repeat (reset tokens, call ids, salts) never do.

## Where the code does less than one might expect

- A wrong OTP guess whose comparison ends after the record is gone brings back a bucket without an OTP and without a timer (`PasswordReset.LateIncrementWitness`, exactly when: `PasswordReset.LeftoverExactlyFromLateGuess`). It is always refused.
- The auto-cancel timer only starts on an unanswered call, but the session can be accepted while its row is being updated, and is then removed all the same (`Calls.TimerCanEndAccepted` says exactly when, `Calls.AcceptedAndTimedOut` shows it).
- Nothing is ever put into `usersCalling`, so nobody is ever busy (`Calls.NeverBusy`), and a disconnect ends only the oldest call of a user (`Calls.DisconnectEndsOne`, `Calls.DisconnectLeavesOne`).
- A reset token can change the password twice if two resets overlap (`PasswordReset.SecondUseExactly`), and overlapping guesses can compare an OTP more often than five times (`PasswordReset.ComparisonsBounded`).
- A reconnecting client is sent at most twenty messages and is not told whether there are more (`MessagePaging.NewerFetchCompletesExactly`).
- Removing an endpoint for somebody who does not own it can leave its owner enabled with nothing to send to, and a fan-out over nothing never settles (`PushNotifications.RemoveKeepsReachable`, `PushNotifications.NotBeforeTheLast`). The settings let a user without any endpoint switch notifications on, with the same effect (`PushNotifications.SwitchKeepsReachable`). The same gap opens when the owner unsubscribes between the two reads of a send (`PushNotifications.SendAcrossReads` says exactly when).
- `isFriend` looks at the request table and is true for a request that was never accepted (`Friends.FriendCheckErrsExactly`).
- A disconnect announces the user as offline even if another socket is live (`Connections.OfflineAnnouncedCorrectly`), a logout does so although the socket stays open (`Connections.LoggedOutStaysOpen`), and a disconnect that overtakes the authentication of its own socket leaves the user online for good (`Connections.AgreesExactly`, `Connections.DisconnectOvertakes`).
- Size and authentication tag of an uploaded file are stored as they are when the request body has been read, which may be before its cipher has ended (`Uploads.StoredTagIsFinalExactly`).
- Two users who write to each other for the first time at once get two chats, one for each opener; two first messages of one user at once give one chat and lose the second message (`DirectChats.OnePerPairExactly`, `DirectChats.AtMostTwoPerPair`, `DirectChats.SecondFirstMessageFails`). Overlapping sends can also leave the older message cached (`DirectChats.CacheRightExactly`).
- Two users who send each other a friend request at once get two rows (`Friends.SecondRowExactly`).
- A status update does not look at the status again when it writes, so one that overlaps a ban can leave a dismissed report with an action (`Moderation.EveryInterleaving`, `Moderation.ProcessedChangesExactly`).
- A later temporary ban replaces a permanent one, and one without a duration frees the user at once (`Moderation.PermanentExactly`, `Moderation.TemporaryBanFrees`).
- Dates before 1970 that are not whole seconds arrive one second early (`Timestamps.RoundTrip`).

## Model

| member | source | states |
|---|---|---|
| `TtlStore.KeyValueStore.CancelExistingTimer` | user-auth-service/src/user/user.service.ts:37-43 | cancels the key's timeout and forgets it; the whole new state is given |
| `TtlStore.KeyValueStore.StoreSetEx` | user-auth-service/src/user/user.service.ts:45-53 | stores the value under one fresh timeout that replaces the key's old one |
| `TtlStore.KeyValueStore.StoreDel` | user-auth-service/src/user/user.service.ts:61-65 | drops value, bucket and timeout of the key |
| `TtlStore.KeyValueStore.StoreHSet` | user-auth-service/src/user/user.service.ts:75-84 | overlays the bucket, creating it if need be |
| `TtlStore.KeyValueStore.StoreHIncrBy` | user-auth-service/src/user/user.service.ts:86-96 | adds to a field that counts as zero if missing, creating the bucket if need be |
| `TtlStore.KeyValueStore.StoreExpire` | user-auth-service/src/user/user.service.ts:98-106 | replaces the key's timeout by one that drops value and bucket |
| `TtlStore.KeyValueStore.TimeoutElapsed` | user-auth-service/src/user/user.service.ts:48-104 | the two timeout callbacks: one drops the value, the other value and bucket; both forget the timer |
| `TtlStore.OneLiveTimeoutPerKey` | user-auth-service/src/user/user.service.ts:35-53 | after every run the timers map holds exactly the live timeouts, one for each key, and every stored value has one |
| `TtlStore.ApplyRefines` | user-auth-service/src/user/user.service.ts:45-106 | every step is a step of a plain map from key to value and deadline, in which only an entry whose deadline has passed may go |
| `TtlStore.EveryRunRefines` | user-auth-service/src/user/user.service.ts:45-59 | over every run each step is such a step, and a read finds exactly what the plain map has |
| `TtlStore.TimeoutsAreTimely` | user-auth-service/src/user/user.service.ts:45-106 | a value or an expiry is given one timeout of the right kind after exactly that many seconds, and the value is there until then |
| `TtlStore.DeletionIsComplete` | user-auth-service/src/user/user.service.ts:61-65 | a deletion leaves nothing of its key, not even a timeout to come, and touches no other key |
| `TtlStore.StepOnField` | user-auth-service/src/user/user.service.ts:61-106 | a step changes exactly the bucket fields it is about, as a flat map of key and field would |
| `TtlStore.StepAgrees` | user-auth-service/src/user/user.service.ts:98-106 | a step keeps agreement with a cache that has no timers at all, exactly unless it moves the expiry of a value whose timeout is overdue |
| `TtlStore.GetAgreesWithLazyCache` | user-auth-service/src/user/user.service.ts:55-59 | over every run that moves no expiry of an overdue value, a read differs from that cache exactly when it still returns a value whose own timeout is overdue |
| `PasswordReset.KeysNeverCollide` | user-auth-service/src/user/user.service.ts:108-114 | the two key functions are injective and their ranges disjoint |
| `PasswordReset.PasswordResetService.RequestMayIssue` | user-auth-service/src/user/user.service.ts:151-161 | an OTP is issued to a registered account that is not cooling down |
| `PasswordReset.PasswordResetService.RequestHashed` | user-auth-service/src/user/user.service.ts:163-171 | the record that is written |
| `PasswordReset.PasswordResetService.VerifyDecide` | user-auth-service/src/user/user.service.ts:176-190 | refuse, drop the record or compare, as `Judge` says of the record; what that comes to is `PasswordReset.ReadAnsweredExactly` |
| `PasswordReset.PasswordResetService.VerifyCompared` | user-auth-service/src/user/user.service.ts:190-202 | a wrong guess is counted, a right one stores the reset token |
| `PasswordReset.PasswordResetService.FindEmailByToken` | user-auth-service/src/user/user.service.ts:206-219 | on a store that does not change meanwhile the loop returns the first account holding the token, and nothing only if no account does |
| `PasswordReset.ScanFindsHolder` | user-auth-service/src/user/user.service.ts:206-219 | with an await at each account and anything in between, the scan does not pass by the account of the token while it is stored there, and matches no other |
| `PasswordReset.HolderIsUnique` | user-auth-service/src/user/user.service.ts:206-219 | in every reachable state at most one account holds a token: the one it was granted to |
| `PasswordReset.EveryInterleaving` | user-auth-service/src/user/user.service.ts:151-234 | with calls interleaved at every await: buckets only under OTP keys, values only under token keys and timed, every record with an OTP timed or about to be, every other bucket refused, and no comparison lost from the counter |
| `PasswordReset.RequestIssuesExactly` | user-auth-service/src/user/user.service.ts:151-171 | in every reachable state a request leads to an OTP exactly for a registered account without an OTP of the last minute |
| `PasswordReset.ReadAnsweredExactly` | user-auth-service/src/user/user.service.ts:176-190 | in every reachable state a verify call that has read a record goes on to compare with its OTP exactly if that is at most ten minutes old and was missed less than five times; otherwise the record is dropped |
| `PasswordReset.ComparedExactly` | user-auth-service/src/user/user.service.ts:190-202 | the right OTP stores the drawn token for its account, any other adds one to its record, and nothing else changes |
| `PasswordReset.RightOtpGrantsToken` | user-auth-service/src/user/user.service.ts:151-202 | from every reachable state: an OTP that is requested and presented at most ten minutes later leaves its token stored and its record gone |
| `PasswordReset.MatchedExactly` | user-auth-service/src/user/user.service.ts:221-233 | a reset that has found its account changes the password, or drops the token if the account is gone |
| `PasswordReset.RightTokenChangesPassword` | user-auth-service/src/user/user.service.ts:205-234 | from every reachable state: a reset with a stored token, over a list with its account, changes the password of that account once and drops the token |
| `PasswordReset.TokenKeptExactly` | user-auth-service/src/user/user.service.ts:195-234 | in every reachable state a stored token goes away exactly by its own reset, with its account, by a newer grant, or by its timeout, and by that not before fifteen minutes |
| `PasswordReset.ChangeGoesBackToOtp` | user-auth-service/src/user/user.service.ts:176-234 | every password change goes back to an OTP issued for that account and presented within its lifetime |
| `PasswordReset.OneAtATimeBounds` | user-auth-service/src/user/user.service.ts:186-198 | with calls handled one at a time an OTP is compared at most five times and a token changes a password at most once |
| `PasswordReset.ComparisonsBounded` | user-auth-service/src/user/user.service.ts:176-202 | with at most k verify calls suspended at any moment an OTP is compared at most 5 + k - 1 times |
| `PasswordReset.SixComparisons` | user-auth-service/src/user/user.service.ts:176-202 | a run with at most two that reaches six |
| `PasswordReset.SecondUseExactly` | user-auth-service/src/user/user.service.ts:205-234 | with calls interleaved at every await, a reset uses its token a second time exactly if another call was about to drop the token when it was found or has used it since |
| `PasswordReset.TokenUsedTwice` | user-auth-service/src/user/user.service.ts:205-234 | two overlapping resets with one token that both change the password |
| `PasswordReset.ReplacedOnlyAfterCooldown` | user-auth-service/src/user/user.service.ts:156-171 | with calls handled one at a time an OTP only replaces another requested at least a minute before |
| `PasswordReset.TokenLifetime` | user-auth-service/src/user/user.service.ts:195-213 | a token that is found was granted less than fifteen minutes ago unless its timeout is overdue |
| `PasswordReset.LeftoverExactlyFromLateGuess` | user-auth-service/src/user/user.service.ts:86-95 | a bucket without an OTP comes about exactly when a wrong guess finds its record gone |
| `PasswordReset.LateIncrementWitness` | user-auth-service/src/user/user.service.ts:190-194 | a run that leaves such a bucket behind without a timer |
| `Calls.CallService.ChooseSessionId` | call-service/src/call/call.service.ts:26-34 | the retry loop returns the first of three draws that is not active, or gives up |
| `Calls.ChosenIsFirst` | call-service/src/call/call.service.ts:26-34 | the chosen id is the first of the three that is not active |
| `Calls.CallService.StoreSession` | call-service/src/call/call.service.ts:35-51 | the new session goes under its own id, last in order |
| `Calls.CallService.AcceptCall` | call-service/src/call/call.service.ts:122-130 | succeeds exactly for an active, unanswered session, and changes its status and nothing else |
| `Calls.CallService.FindSessionByUserId` | call-service/src/call/call.service.ts:168-175 | the loop computes the specified look-up |
| `Calls.FindByUserIsOldest` | call-service/src/call/call.service.ts:168-175 | the look-up returns the oldest session of the user, and nothing only if there is none |
| `Calls.CallService.RemoveSession` | call-service/src/call/call.service.ts:192-197 | removes the session, and the two busy entries if they are for it |
| `Calls.BothAreFreed` | call-service/src/call/call.service.ts:193-196 | exactly the two users of the call are freed, and each only if he is noted for this call |
| `Calls.CallService.AutoCancelDue` | call-service/src/call/call.gateway.ts:142-148 | the timer acts exactly on an active, unanswered session |
| `Calls.EveryInterleaving` | call-service/src/call/call.gateway.ts:111-269 | after every interleaving each session sits under its own id, is requesting or accepted, is not ended, and is accepted, timed, about to be timed, or being ended; each id is accepted at most once; every timer is at most ten seconds away |
| `Calls.StepDirection` | call-service/src/call/call.service.ts:122-198 | a status only goes from requesting to accepted, and a session that leaves the map is ended |
| `Calls.RequestRuns` | call-service/src/call/call.gateway.ts:175-202 | a request to an online callee has its row created |
| `Calls.RequestCreates` | call-service/src/call/call.service.ts:35-51 | then a waiting call between the two is in the map |
| `Calls.RequestArms` | call-service/src/call/call.gateway.ts:141-161 | then a timer of ten seconds is armed for it |
| `Calls.AcceptExactly` | call-service/src/call/call.service.ts:122-130 | an accept answers a waiting call, and changes nothing for any other |
| `Calls.TimerExactly` | call-service/src/call/call.gateway.ts:141-161 | a due timer starts to end its call exactly if nobody has answered it |
| `Calls.RejectEndsOne` | call-service/src/call/call.gateway.ts:216-224 | a rejection starts to end an active call; whatever happens then, that call and no other is removed |
| `Calls.HangUpEndsOne` | call-service/src/call/call.gateway.ts:258-269 | a hang-up does so once its authentication is back, whatever happens until then, if the call is still active |
| `Calls.EndedStaysEnded` | call-service/src/call/call.service.ts:177-198 | an ended id never comes back, even if ends overlap |
| `Calls.NoCallLeftWaiting` | call-service/src/call/call.gateway.ts:141-161 | once all handlers and timers are through, only accepted calls are left |
| `Calls.TimerStartsOnUnanswered` | call-service/src/call/call.gateway.ts:143-148 | the timer only starts to end a call that is unanswered at that moment |
| `Calls.TimerCanEndAccepted` | call-service/src/call/call.gateway.ts:141-161 | some future removes an accepted call on behalf of the timer exactly if the timer's end is already in flight |
| `Calls.AcceptedAndTimedOut` | call-service/src/call/call.gateway.ts:141-161 | a run from the start that reaches an accepted call the timer is about to remove |
| `Calls.NeverBusy` | call-service/src/call/call.service.ts:200-202 | no user is ever reported busy |
| `Calls.DisconnectEndsOne` | call-service/src/call/call.gateway.ts:120-130 | a disconnect starts to end the user's oldest call and nothing else; whatever happens until that end resumes, it removes that call and leaves the user in exactly his others |
| `Calls.DisconnectLeavesOne` | call-service/src/call/call.gateway.ts:111-137 | a run in which a user in two calls disconnects and stays in one |
| `MessagePaging.SelectedIsExact` | conversation-service/src/message/message.service.ts:174-197 | the query's rows: exactly the matching ones, by falling id |
| `MessagePaging.SortIsExact` | conversation-service/src/message/message.service.ts:161-172 | the re-sorting is a permutation into time order that keeps the order of equal times |
| `MessagePaging.GetOlderDirectMessagesHandler` | conversation-service/src/message/message.service.ts:199-229 | the page shows the first `limit` selected rows, and says there are more exactly if there are |
| `MessagePaging.PageIsExact` | conversation-service/src/message/message.service.ts:174-229 | a page holds only messages of the chats asked for and up to the offset, none twice, and leaves one out only if it is full, all it shows is newer, and it says that there are more |
| `MessagePaging.WalkReturnsEachOnce` | conversation-service/src/message/message.service.ts:174-229 | paging from an inclusive first offset and then strictly below the least id seen returns every message exactly once, whatever the times and the sort type, in `PageCount` fetches |
| `MessagePaging.GrowingWalkReturnsEachOnce` | conversation-service/src/message/message.service.ts:174-229 | so it does when messages come in between the fetches: what was there at the start is returned exactly once |
| `MessagePaging.PageCountIsCeiling` | conversation-service/src/message/message.service.ts:225-228 | that number is the ceiling of n / limit, and one for an empty chat |
| `MessagePaging.WalkExists` | conversation-service/src/message/message.service.ts:199-229 | the walk terminates for every table, query and positive limit |
| `MessagePaging.WalkGoesDown` | conversation-service/src/message/message.service.ts:174-229 | what is on any page has a greater id than what is on any later page |
| `MessagePaging.LimitZeroReturnsNothing` | conversation-service/src/message/message.service.ts:215-227 | with limit zero nothing is returned, and more is announced exactly if there is anything |
| `MessagePaging.NewerFetchIsExact` | conversation-service/src/message/message.service.ts:138-159 | a fetch of newer messages returns matching rows by rising id, as many as the limit allows, and every one left out is newer than all of them |
| `MessagePaging.NewerFetchCompletesExactly` | conversation-service/src/message/message.service.ts:138-197 | one such fetch and what is at or below the offset are the whole chat exactly if no more messages are newer than the limit |
| `MessagePaging.RecoveryMissesMessages` | chat-service/src/messaging/messaging.gateway.ts:224-243 | a reconnecting client that has missed twenty-one messages is not sent them all |
| `MessagePaging.ForwardWalkReturnsEachOnce` | conversation-service/src/message/message.service.ts:138-159 | fetching on above the last id received, until a fetch is not full, returns every newer message exactly once, in order |
| `MessagePaging.ForwardWalkExists` | conversation-service/src/message/message.service.ts:138-159 | that walk terminates for every table, offset and positive limit |
| `PushNotifications.SubscriptionTable.AddSubscription` | notification_service/src/push-notification/push-notification.service.ts:53-80 | a new endpoint is stored and its user enabled; a known one changes nothing, whoever owns it |
| `PushNotifications.AddExactly` | notification_service/src/push-notification/push-notification.service.ts:53-80 | a new endpoint goes to its user, who is then enabled; nothing else changes |
| `PushNotifications.SubscriptionTable.RemoveSubscription` | notification_service/src/push-notification/push-notification.service.ts:82-91 | a known endpoint is removed and the caller disabled; an unknown one changes nothing |
| `PushNotifications.SubscriptionTable.UpdateUserSettings` | user-auth-service/src/user/user-settings/user-settings.service.ts:15-21 | the settings write the switch as the user asks |
| `PushNotifications.RemoveKeepsReachable` | notification_service/src/push-notification/push-notification.service.ts:82-91 | a removal leaves every enabled user a subscription exactly if the owner is the caller, is disabled or has another |
| `PushNotifications.StrangerRemoves` | notification_service/src/push-notification/push-notification.service.ts:82-91 | a removal for somebody else that leaves the owner enabled with nothing to send to |
| `PushNotifications.SwitchKeepsReachable` | user-auth-service/src/user/user-settings/user-settings.service.ts:15-21 | a write of the switch does so exactly if it switches off or the user has a subscription |
| `PushNotifications.SwitchedOnWithoutEndpoint` | user-auth-service/src/user/user-settings/user-settings.service.ts:15-21 | a user without an endpoint who switches notifications on, and to whom a send never settles |
| `PushNotifications.RunKeepsReachable` | notification_service/src/push-notification/push-notification.service.ts:53-91 | over every run of additions, removals and writes of the switch: every enabled user has a subscription all along exactly if each operation is harmless when it comes |
| `PushNotifications.OwnerRemovesIsHarmless` | notification_service/src/push-notification/push-notification.service.ts:53-91 | as it is if endpoints are removed for their owners and only a user who has one switches on |
| `PushNotifications.FanOutJoin.OnThen` | notification_service/src/push-notification/push-notification.service.ts:136-138 | a delivered send |
| `PushNotifications.FanOutJoin.OnCatch` | notification_service/src/push-notification/push-notification.service.ts:139-148 | a failed send: listed, and removed or the promise rejected |
| `PushNotifications.FanOutJoin.OnFinally` | notification_service/src/push-notification/push-notification.service.ts:149-157 | the count that resolves the promise |
| `PushNotifications.CompletedFanOut` | notification_service/src/push-notification/push-notification.service.ts:117-159 | for any settlement order, read off the events: resolved with the endpoints delivered to and those that are gone if there is no other failure, else rejected with the first other error |
| `PushNotifications.LogIsSettlings` | notification_service/src/push-notification/push-notification.service.ts:136-157 | the log of a fan-out is the first settling of each of its sends, in order, and nothing else |
| `PushNotifications.GoneIsFailure` | notification_service/src/push-notification/push-notification.service.ts:139-157 | one subscription answered with 410 is reported as failed |
| `PushNotifications.NotBeforeTheLast` | notification_service/src/push-notification/push-notification.service.ts:119-157 | never resolved before the last send; never settled over no subscription |
| `PushNotifications.SettledOnce` | notification_service/src/push-notification/push-notification.service.ts:119-157 | a settled promise does not change |
| `PushNotifications.SendAcrossReads` | notification_service/src/push-notification/push-notification.service.ts:103-159 | whatever happens between the read of the switch and the read of the table, a send settles once its parts have exactly if the user still has a subscription at the second read; after harmless operations he has one if he is still enabled |
| `PushNotifications.UntouchedKeepsSubscription` | notification_service/src/push-notification/push-notification.service.ts:103-121 | he still has one unless an endpoint of his was removed in between |
| `PushNotifications.EnabledSendSettles` | notification_service/src/push-notification/push-notification.service.ts:103-159 | after harmless operations and with nothing between the two reads the fan-out of an enabled user is never empty and always settles once its sends have |
| `PushNotifications.CleanUp` | notification_service/src/push-notification/push-notification.service.ts:141-144 | the removals take away exactly the dead endpoints, disable the user if there was one, and strand nobody |
| `PushNotifications.CheckThenReadGap` | notification_service/src/push-notification/push-notification.service.ts:107-121 | if the owner unsubscribes between the two reads, the fan-out never settles |
| `Friends.FriendTables.SendFriendRequest` | user-auth-service/src/friend-request/friend-request.service.ts:103-152 | the transition and the answer of `SendOutcome`; what they come to are `Friends.SendExactly` and `Friends.SendTold` |
| `Friends.SendExactly` | user-auth-service/src/friend-request/friend-request.service.ts:103-152 | after every run a request takes effect exactly if it is to another user, not blocked, and the pair has no request or a rejected one; the pair's one row is then pending in its direction, with its old id if it had one, and nothing else changes |
| `Friends.SendTold` | user-auth-service/src/friend-request/friend-request.service.ts:103-126 | the sender is told the row, or the first reason that applies |
| `Friends.ActionExactly` | user-auth-service/src/friend-request/friend-request.service.ts:164-195 | an answer sets the status of that one row, and an acceptance adds one friend row from sender to recipient |
| `Friends.FriendTables.FriendRequestAction` | user-auth-service/src/friend-request/friend-request.service.ts:164-195 | sets the status; accepting adds a friend row |
| `Friends.FriendTables.Remove` | user-auth-service/src/friend/friend.service.ts:138-155 | deletes the pair's rows in both tables |
| `Friends.LookupsAgreeExactlyWithoutSelfRows` | user-auth-service/src/friend-request/friend-request.service.ts:80-91 | the membership filter equals the two-direction filter for all users exactly if no row joins a user to itself |
| `Friends.EveryRun` | user-auth-service/src/friend-request/friend-request.service.ts:103-198 | with calls handled one at a time: one request row for each pair, none to oneself, both look-ups equal, the friend check symmetric and true for every friend |
| `Friends.UndisturbedSend` | user-auth-service/src/friend-request/friend-request.service.ts:103-152 | a send cut between look-up and write that nothing overlaps is the whole send |
| `Friends.SecondRowExactly` | user-auth-service/src/friend-request/friend-request.service.ts:103-152 | with sends overlapping, a pair has more than one row exactly if, since it was last removed, a creation took effect when it had one |
| `Friends.RequestsCross` | user-auth-service/src/friend-request/friend-request.service.ts:103-152 | two users who send each other a request at once get two rows |
| `Friends.RemoveIsComplete` | user-auth-service/src/friend/friend.service.ts:138-155 | after a removal the pair is unknown to both tables and every other pair is as before |
| `Friends.FriendCheckErrsExactly` | user-auth-service/src/friend/friend.service.ts:14-38 | after every run the friend check is wrong for a pair exactly if the pair has a request that was never accepted |
| `Friends.SentPassesFriendCheck` | user-auth-service/src/friend/friend.service.ts:36-38 | a request that was merely sent passes the friend check |
| `Friends.RejectionLeavesFriend` | user-auth-service/src/friend-request/friend-request.service.ts:164-195 | a rejection after the acceptance leaves the friend row, so the status does not decide |
| `Moderation.AdminService.ReadPending` | admin-service/src/admin/admin.service.ts:474-490 | the read of the report and the check that it is pending |
| `Moderation.AdminService.WriteStatus` | admin-service/src/admin/admin.service.ts:494-499 | the write, which does not look at the status again |
| `Moderation.AdminService.UpdateViolationReportStatus` | admin-service/src/admin/admin.service.ts:470-506 | with nothing between the two: only a pending report changes |
| `Moderation.AdminService.BanReportedUser` | admin-service/src/admin/admin.service.ts:521-598 | one transaction: action, resolved report, redacted messages, or a refusal that changes nothing |
| `Moderation.AdminService.RedactMessages` | admin-service/src/admin/admin.service.ts:600-641 | the loop redacts exactly the listed messages and drops exactly their known files |
| `Moderation.RedactExactly` | admin-service/src/admin/admin.service.ts:600-641 | a listed message is deleted, marked and empty, of the same kind, without sticker and without a dropped file; a file is dropped exactly if a listed media message held it and it was known; no other message changes |
| `Moderation.BanExactly` | admin-service/src/admin/admin.service.ts:529-598 | a ban takes effect exactly on a pending report with a readable end; its action, the end of it and the report are given, and the reason of a refusal |
| `Moderation.StatusExactly` | admin-service/src/admin/admin.service.ts:470-499 | a status update changes the status of a pending report and nothing else |
| `Moderation.OneActionPerReport` | admin-service/src/admin/admin.service.ts:529-598 | with admin calls handled one at a time: a report has at most one action, and is RESOLVED if it has one |
| `Moderation.RunKeepsReports` | admin-service/src/admin/admin.service.ts:486-493 | with admin calls handled one at a time: a report that has left PENDING never changes again |
| `Moderation.UndisturbedCalls` | admin-service/src/admin/admin.service.ts:470-598 | a call cut between its read and its writes that nothing overlaps is the whole call |
| `Moderation.EveryInterleaving` | admin-service/src/admin/admin.service.ts:470-598 | over every interleaving a report has at most one action; one that has an action is not RESOLVED exactly if a status update to something else was written last, after its ban |
| `Moderation.ProcessedChangesExactly` | admin-service/src/admin/admin.service.ts:474-499 | a processed report changes in some future exactly if a call that found it pending is still to write another status |
| `Moderation.DismissedWithAction` | admin-service/src/admin/admin.service.ts:470-598 | a run that leaves a dismissed report with an action |
| `Moderation.LatestIsLatest` | user-auth-service/src/auth/auth.service.ts:64-83 | the look-up finds a ban of the user at least as recent as every other, and nothing only if there is none |
| `Moderation.StepOnBanStatus` | user-auth-service/src/auth/auth.service.ts:55-138 | a new ban of the user decides the check alone, time can only end a temporary ban, and nothing else matters, warnings included |
| `Moderation.NewBanStatus` | user-auth-service/src/auth/auth.service.ts:85-138 | a permanent ban is permanent, a temporary one holds strictly before its end, if it has one |
| `Moderation.OverlappingStepOnBanStatus` | user-auth-service/src/auth/auth.service.ts:55-138 | so it is with overlapping calls: only the commit of a ban of the user and time change his status |
| `Moderation.BanOnlyRunsOut` | user-auth-service/src/auth/auth.service.ts:100-131 | over every run without a new ban a free user stays free and a banned one stays banned alike until the time is up |
| `Moderation.LastBanDecides` | user-auth-service/src/auth/auth.service.ts:55-138 | over every run the last ban it puts on the user decides the check alone, and without one the old status runs out |
| `Moderation.PermanentExactly` | user-auth-service/src/auth/auth.service.ts:55-138 | a permanent ban is still in force after a run exactly if the last ban of the run, if any, is permanent |
| `Moderation.TemporaryBanFrees` | admin-service/src/admin/admin.service.ts:571-586 | a temporary ban without a duration frees a permanently banned user at once |
| `Moderation.RemainingParts` | user-auth-service/src/auth/auth.service.ts:103-118 | the reported parts fall short of the true remainder by less than a minute, in range, in order, without zero parts |
| `Connections.UserConnectionService.AddConnectedClient` | chat-service/src/connection/user-connection.service.ts:39-46 | the socket goes to the end of the user's array |
| `Connections.UserConnectionService.RemoveConnectedClient` | chat-service/src/connection/user-connection.service.ts:56-68 | one socket is filtered out, or the user forgotten |
| `Connections.UserConnectionService.GetConnectedClientsCountForAdmin` | chat-service/src/connection/user-connection.service.ts:103-113 | the loop counts the users with a non-empty array |
| `Connections.RunRepresents` | chat-service/src/connection/user-connection.service.ts:39-68 | over every run the registry refines the list of live connections, in connect order |
| `Connections.EveryRun` | chat-service/src/messaging/messaging.gateway.ts:184-222 | with an await before each socket is added, and logouts of one or all sockets: a user's array lists each of his live sockets once and otherwise only stale ones, he is online exactly if he has one or the other, and those users are counted; live are exactly the sockets added, open and not logged out since |
| `Connections.StepOnArray` | chat-service/src/messaging/messaging.gateway.ts:184-222 | which sockets an event adds to or takes from the array of a user |
| `Connections.StepOnTransport` | chat-service/src/messaging/messaging.gateway.ts:184-222 | which sockets are open and joining after an event |
| `Connections.AgreesExactly` | chat-service/src/messaging/messaging.gateway.ts:184-222 | after every run a user's array is his live sockets in order exactly if none of his is stale |
| `Connections.StaleExactly` | chat-service/src/messaging/messaging.gateway.ts:189-192 | a socket becomes stale exactly by being added when it is already gone, and only logging it out takes it away |
| `Connections.DisconnectOvertakes` | chat-service/src/messaging/messaging.gateway.ts:184-222 | a run that leaves a user online with no socket open |
| `Connections.LoggedOutStaysOpen` | user-auth-service/src/auth/auth.service.ts:216-218 | a run that leaves a user offline whose socket is open |
| `Connections.OfflineAnnouncedCorrectly` | chat-service/src/messaging/messaging.gateway.ts:215-218 | the announcement on disconnect is right exactly if there was no other socket |
| `Connections.OfflineWithSocketLeft` | chat-service/src/messaging/messaging.gateway.ts:215-218 | a user with two sockets who closes one and is announced as offline |
| `Stringify.SafeStringifyMessage` | chat-service/src/dev/dev-logger.ts:15-58 | on any finite graph the recursion terminates, returns the shared `seen` set as it was, and prints what the path-based meaning says |
| `Stringify.MarksAreExact` | chat-service/src/dev/dev-logger.ts:23-45 | which positions are printed; the depth mark exactly below the limit; the circular mark exactly at an object nested in itself, never at an array or a merely shared object |
| `Stringify.PrintedIsExact` | chat-service/src/dev/dev-logger.ts:26-55 | at a printed position a leaf has its own text, an array all its items, an object all its properties by name |
| `Stringify.LeafTexts` | chat-service/src/dev/dev-logger.ts:23-30 | how each kind of plain value and the two marks read |
| `Stringify.ArrayReads` | chat-service/src/dev/dev-logger.ts:32-40 | how arrays read: header, one indented line for each item after its index, no commas |
| `Stringify.ObjectReads` | chat-service/src/dev/dev-logger.ts:43-55 | how objects read: header, one indented line for each property after its name, commas between |
| `Stringify.SpacesAreBlanks` | chat-service/src/dev/dev-logger.ts:21 | two blanks for each level |
| `Stringify.DigitsAreDecimal` | chat-service/src/dev/dev-logger.ts:36 | the index is decimal, without leading zeros |
| `ChartData.BucketsCover` | admin-service/src/admin/admin.service.ts:1111-1116 | the buckets reach the end and overshoot by less than a day; an empty range has none |
| `ChartData.BucketsTile` | admin-service/src/admin/admin.service.ts:1121-1123 | every instant of the tiled interval is in exactly one bucket |
| `ChartData.EndOfDayIsLast` | admin-service/src/admin/admin.service.ts:1111-1112 | the adjusted end is the last millisecond of the end date's day |
| `ChartData.DayIsCounted` | admin-service/src/admin/admin.service.ts:1124-1165 | what is counted for a day: users of the role USER, messages of direct chats and of groups without pin notices, and group chats |
| `ChartData.GenerateChartData` | admin-service/src/admin/admin.service.ts:1109-1175 | each entry is the number of the rows of its day, and each series sums to the matching rows of the tiled interval |
| `Uploads.UploadSession.OnFile` | media-service/src/upload/upload.service.ts:179-211 | the next id and a fresh entry |
| `Uploads.UploadSession.OnData` | media-service/src/upload/upload.service.ts:181-183 | a chunk grows its own entry |
| `Uploads.StepIsLocal` | media-service/src/upload/upload.service.ts:179-211 | ids stay 1..n, and no event touches another entry |
| `Uploads.MaxIdIsLast` | media-service/src/utils/helpers.ts:187-190 | the greatest id of consecutive ids is the last |
| `Uploads.RunAccounts` | media-service/src/upload/upload.service.ts:179-211 | however events interleave a size is the sum of the entry's own chunks |
| `Uploads.SizeIsBytes` | media-service/src/upload/upload.service.ts:179-211 | so it is for a file that only comes in the run |
| `Uploads.StoredTagIsFinalExactly` | media-service/src/upload/upload.service.ts:181-241 | the tag stored with a file is the final one exactly if its cipher had ended when the request body had been read, and then the size stored is the whole size |
| `Uploads.StoredTooEarly` | media-service/src/upload/upload.service.ts:213-241 | a run that stores a short size and an empty tag |
| `DirectChats.DirectChatTables.HandleDirectChatNotExists` | chat-service/src/messaging/messaging.gateway.ts:250-263 | the chat of the pair is found or created |
| `DirectChats.DirectChatTables.HandleMessage` | chat-service/src/messaging/messaging.gateway.ts:354-367 | the message is stored and cached |
| `DirectChats.EveryRun` | conversation-service/src/direct-chat/direct-chat.service.ts:108-131 | with sends handled one at a time: one chat for each unordered pair, and its cached message is its greatest |
| `DirectChats.SendExactly` | chat-service/src/messaging/messaging.gateway.ts:354-367 | a send adds one message in the chat of the two, opened by the sender if there is none, and caches it; all else is as before |
| `DirectChats.UndisturbedSend` | chat-service/src/messaging/messaging.gateway.ts:250-263 | a send cut at its awaits that nothing overlaps is the whole send |
| `DirectChats.CacheRightExactly` | chat-service/src/messaging/messaging.gateway.ts:354-367 | over every interleaving: once no update of a chat is under way, all its messages have had theirs, and its cache is right exactly if the last one did not come after that of a later message |
| `DirectChats.AtMostTwoPerPair` | conversation-service/prisma/schema.prisma:86-103 | over every interleaving no user has opened two chats with another, so a pair has at most two |
| `DirectChats.OnePerPairExactly` | chat-service/src/messaging/messaging.gateway.ts:250-263 | over every interleaving there is one chat for each pair exactly if no creation took effect when the other user of the pair had opened a chat already |
| `DirectChats.FirstMessagesCross` | chat-service/src/messaging/messaging.gateway.ts:250-263 | two users who write to each other for the first time at once get two chats |
| `DirectChats.SecondFirstMessageFails` | conversation-service/src/direct-chat/direct-chat.service.ts:123-131 | a user who sends two first messages at once gets one chat, and the second message is not stored |
| `DirectChats.OverlapLeavesOlderMessage` | chat-service/src/messaging/messaging.gateway.ts:354-367 | a run from the start in which two updates swap and the older message stays cached |
| `Timestamps.RoundTrip` | chat-service/src/utils/helpers.ts:151-156 | seconds by floor; identity from 1970 on and on whole seconds before, otherwise a second early; nanos in range exactly in the former case |
| `Timestamps.RoundTripIsInjective` | conversation-service/src/utils/helpers.ts:142-144 | the round trip never maps two dates to one |

## Left out

- Decorators, DTO validation, module wiring, gRPC stubs, JWT, Agora tokens, e-mail, S3, ffmpeg, Elasticsearch and message encryption: no state of their own that the properties need.
- Socket emissions and log writes: outputs, not modelled; announcements matter only in `Connections.OfflineAnnouncedCorrectly`.
- Database failures in the middle of a handler: `acceptCall`, `endCall` and the creation of a call row swallow them, so the model's steps are the same; elsewhere a call is taken to succeed or to fail as a whole.
- PasswordReset.OneAtATimeBounds: the bound of five and the single use of a token hold for calls handled one at a time; for interleaved calls `PasswordReset.ComparisonsBounded` bounds the comparisons by the number of calls that overlap, and `PasswordReset.SecondUseExactly` says when a token is used again.
- PasswordReset.PasswordResetService.FindEmailByToken: reads the store in one go; the scan with an await at each account is `Scanning` in `PasswordReset.Continue`, and what is promised of it is `PasswordReset.ScanFindsHolder`.
- MessagePaging.WalkReturnsEachOnce: for a limit of at least one and a table that does not change between fetches; `MessagePaging.GrowingWalkReturnsEachOnce` lets rows be appended, edits and deletions are not modelled.
- MessagePaging.GetOlderDirectMessagesHandler: negative limits, which Prisma reads as counting from the other end, are not modelled.
- TtlStore.GetAgreesWithLazyCache: not for runs that move the expiry of a value whose timeout is overdue, where `TtlStore.StepAgrees` says that agreement ends.
- Friends.EveryRun: calls one at a time. `Friends.SecondRowExactly` lets sends overlap; accepting, rejecting and removing are whole there too.
- Moderation.OneActionPerReport: admin calls one at a time; for overlapping calls see `Moderation.EveryInterleaving`. A transaction takes effect as a whole when it commits, and a second action for a report, which the unique index refuses, takes its transaction with it.
- Moderation.RunKeepsReports: admin calls one at a time; for overlapping calls see `Moderation.ProcessedChangesExactly`.
- Moderation.LatestIsLatest: of two bans with the same creation time the later row is taken; the database may return either.
- ChartData.GenerateChartData: the local time zone is a fixed offset, and date labels are not formatted.
- Timestamps.RoundTrip: only whole milliseconds.
- The unused status updates `RINGING`, `CONNECTED` and so on (`updateCallStatus` has no caller), SDP and ICE relaying.
- Stringify.SafeStringifyMessage: object properties are listed values; getters that run code and non-enumerable properties are not modelled.
- Uploads.StepIsLocal: chunk and cipher events for an unregistered id, which cannot occur, change nothing in the model.
- Uploads.StoredTagIsFinalExactly: the order of stream events (a cipher ends once, after its chunks, with a tag that is not empty) is what Node's streams guarantee and is taken as given.
- DirectChats.EveryRun: sends one at a time; for overlapping sends see `DirectChats.CacheRightExactly` and `DirectChats.OnePerPairExactly`. A statement to the database takes effect when its await ends.
- User settings other than the notification switch, group chats, pins, search, deletion of direct chats with their messages, the form of a report and pagination of listings: not part of this model. Whether a user is blocked is a parameter of a send.
- Paging of chat lists, whose cursor is on the id while the order is on the last message's time: a completeness claim does not hold there.
