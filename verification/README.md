# Verified core of a Matrix homeserver

A Dafny model of the parts of the server (a Synapse fork) where a wrong branch does lasting damage, with proofs
about every input, every reachable state or every whole run:

* **Event authorization** (`Strings`, `RoomVersions`, `Events`, `EventAuth`, `EventAuthLoops`): the Matrix authorization
  rules as the code checks them. `RuleBook`, `MembershipRules`, `SendRules` and `CitationRules` state the same rules
  over the raw content of events, sharing no definition with the code, and prove that the code follows them exactly.
  `AuthSelection` and `CitationGap` are about the selection of auth events, and `RoomRuns`, `RoomLaws` and
  `RoomFounding` about what the rules keep over whole room histories.
* **Rate limiting** (`RateLimiter`, `RateLimiterRuns`): the lazy leaky bucket, against an ideal bucket that leaks
  continuously.
* **Notifications** (`PendingQueue`, `Notifier`, `Waiting`): the per-user streams, their listeners, the room index, the
  queue of events that other workers have not caught up with, and waiting while streams move.
* **Visibility** (`Visibility`, `VisibilityRules`): who may see an event, one user at a time and in bulk, and the same
  rules over the raw content of events.
* **The database port** (`PortRows`, `Sweep`, `PortTable`, `PorterRuns`, `PorterCascade`, `PortSchedule`): the
  two-way sweep with checkpoints, interruptions, `TRUNCATE ... CASCADE`, and the order in which tables are copied.
* **Lazy components** (`Graph`, `Components`): the build cache of the home server object and its cycle check.
* **Worker requests** (`WorkerNames`, `WorkerLaws`, `WorkerParser`, `WorkerSyntax`): the request syntax and the names
  given to workers.

Code that computes a value is modelled by functions. Objects updated in place are classes with `modifies` clauses, and
loops are methods with invariants, each proved equal to a function or to a condition stated apart from the loop.

## What the proofs found

Where a promise turned out not to hold of the code, the model keeps the code, a lemma shows an input that breaks the
promise, and an if-and-only-if says exactly when it holds. (For registering streams both are methods: the contract of
`RegisterWithKeys`, and two that build a failing notifier.)

* **Auth event selection** names every entry the rules read, except for a power levels event under a non-empty state
  key: the rules compare it with the entry under its own key, which is never selected
  (`AuthSelection.SelectionSufficesExactly`, `AuthSelection.GapShows`, `CitationGap.CitingMisleadsExactly`).
* **Recording an action** on an entry that has leaked below empty adds less than was recorded
  (`RateLimiter.RecordAddsExactly`, `RateLimiter.RecordedActionsVanish`).
* **Pruning** uses the rate stored with the entry, so later requests at a slower rate can get other
  answers (`RateLimiter.PruneUnnoticedExactly`, `RateLimiter.PruneNeverNoticedExactly`,
  `RateLimiter.PruneHelpsSlowerCalls`).
* **The returned retry time** is exact for one more action, provided that the burst count admits one, and too early
  for a refused request of several
  (`RateLimiter.RetryTimeIsExact`, `RateLimiter.RetryTimeIsForOneAction`, `RateLimiter.RetryTooEarlyForTwo`).
* **`TRUNCATE ... CASCADE`** of a table that is copied afresh empties append-only tables that reference it, while their
  checkpoints say that nothing is left to copy. A second port after a finished one then ends with the rows gone
  (`PorterCascade.CascadeLosesRows`, `PorterCascade.ExactlyOnceExactly`).
  The lemmas are about any schema and any set of append-only tables; whether the shipped tables hold such a reference
  is not part of this model.
* **The copy loop** goes round forever when a table reaches a cycle of references or a table that is not to be copied,
  and can end in every other case (`PortSchedule.PortInOrder`, `PorterCascade.FinishesExactly`,
  `PorterCascade.CycleNeverFinishes`).
* **Erasing the sender** also hides changes of the history visibility that the laxer of the two settings would
  otherwise show (`EventVisibility.ErasureHidesExactly`, `EventVisibility.ErasureHidesClosing`).
* **Registering a second stream** for a user, which the await between looking up and registering allows, pushes the
  first one out of the user index. Events in its rooms still find it, through a stale entry; events for the user do
  not, so that its listeners sleep through them (`Notifications.Notifier.RegisterWithKeys`,
  `Notifications.StaleRoomEntry`, `Notifications.LostWakeup`).
* **A negative multiplier** asks for no workers; the comment in the script says that it is an error
  (`WorkerLaws.CountErrorsExactly`, `WorkerLaws.CountsAreHonoured`).

## Model

| member | source | states |
|---|---|---|
| RoomVersions.KnockRestrictedNeedsRestricted | synapse/api/room_versions.py:114-417 | every listed version that knows `knock_restricted` also knows `restricted` and `knock`, and every one that knows `restricted` knows `knock` |
| CitationRules.FeaturesByVersion | synapse/api/room_versions.py:114-417 | for each feature the authorization rules read, exactly which of the listed versions have it, by identifier |
| CitationRules.IdentifiersExactly | synapse/api/room_versions.py:114-417 | the thirteen identifiers a create event may name |
| EventAuthLoops.LevelsToCheck | synapse/event_auth.py:933-959 | the list of places to compare holds exactly the fixed ones and those present in the old or the new content, with notifications only in versions that limit them |
| EventAuthLoops.CheckLevelChanges | synapse/event_auth.py:961-1000 | comparing only the listed places decides the rule for every place a level can stand in; `SendRules.MaySetLevelsExactly` says what that rule is |
| EventAuthLoops.RunCheckPowerLevels | synapse/event_auth.py:880-1000 | the loop gives the verdict of the function that `SendRules.MaySetLevelsExactly` ties to the content of the event |
| EventAuthLoops.CheckStateIndependent | synapse/event_auth.py:161-276 | the loop over cited auth events accepts exactly what the function does that `CitationRules.IndependentExactly` ties to the cited events |
| AuthSelection.SameUserLevel | synapse/event_auth.py:1007-1057 | levels are decided by the power levels and create entries alone |
| AuthSelection.SameJoin | synapse/event_auth.py:629-687 | the join rules read nothing beside the levels, the join rule and the authorising user's membership |
| AuthSelection.SameTransition | synapse/event_auth.py:582-737 | two states that agree on the selected entries give the same verdict on a change of membership between known parties |
| AuthSelection.SameMembershipVerdict | synapse/event_auth.py:497-737 | the same for the whole membership check, errors included |
| AuthSelection.SameCanSend | synapse/event_auth.py:795-839 | whether a user may send an event is decided by the power levels and create entries |
| AuthSelection.SameVerdict | synapse/event_auth.py:279-373 | the same for the whole state-dependent check, given agreement on the entry a power levels event replaces |
| AuthSelection.GapShows | synapse/event_auth.py:880-930 | for every event in the gap, two states that agree on all selected entries and give different verdicts |
| AuthSelection.NoGapMeansSameVerdict | synapse/event_auth.py:1142-1184 | outside the gap, states that agree on the selected entries always give the same verdict |
| AuthSelection.SelectionSufficesExactly | synapse/event_auth.py:1142-1184 | the selected entries decide the verdict in all room states if and only if the event is not a writable power levels event under a non-empty state key |
| AuthSelection.CitedEventsDecide | synapse/event_auth.py:161-373 | an event that cites its selection passes the state-independent rules exactly if the room has a create event, and outside the gap the check against the cited events gives the verdict of the whole room state |
| CitationGap.CitingMisleadsExactly | synapse/event_auth.py:161-373 | some room state from which the event cites its selection gives another verdict than the cited events if and only if the event lies in the gap |
| RuleBook.ServersAgree | synapse/event_auth.py:279-300 | the server of an id is what follows its first colon, and there is none without a colon |
| RuleBook.CreatorsAgree | synapse/event_auth.py:488-527 | the creator is the sender of the create event or the user it names, by version; a room federates unless its create event says false |
| RuleBook.LevelsAgree | synapse/event_auth.py:1007-1057 | a user has the listed level, else the default set, else 0; without power levels the creator has 100 and others 0; the levels needed to invite, ban, kick and redact are those set, else 0, 50, 50 and 50 |
| RuleBook.SendLevelsAgree | synapse/event_auth.py:758-792 | an event type needs its listed level, else the default set for state or messages, else 50 or 0 |
| RuleBook.RulesAgree | synapse/event_auth.py:553-558 | the join rule is the one the join rules event names, invite if there is none; which rules admit vouched-for and invited users, by version |
| RuleBook.MembershipsAgree | synapse/event_auth.py:534-551 | the membership of a user is the one their member event names |
| MembershipRules.TransitionExactly | synapse/event_auth.py:582-737 | for each target membership, the ordered checks accept exactly what a table by target membership allows |
| MembershipRules.CreatorJoinExactly | synapse/event_auth.py:512-527 | the exception for the first join fires exactly for the creator directly on top of the create event, and fails exactly when the create event names no creator |
| MembershipRules.MembershipExactly | synapse/event_auth.py:497-737 | the membership check accepts if and only if the table of membership rules does, unreadable entries and federation included |
| MembershipRules.ProvenInviteExactly | synapse/event_auth.py:1060-1128 | a third-party invite counts exactly if the signed block names the target and verifies under a key of the invite with its token, which the same sender issued |
| MembershipRules.StrangersNeedPublicRooms | synapse/event_auth.py:629-687 | a stranger nobody vouches for may join exactly if the join rules event names the public rule |
| SendRules.MayWriteExactly | synapse/event_auth.py:810-839 | state under a key that starts with @ may be written exactly under one's own id or, with MSC3757, under a key that starts with the id of oneself or of somebody one outranks |
| SendRules.MaySendExactly | synapse/event_auth.py:795-839 | an event may be sent exactly if its sender has the level needed and may write under its key; it fails for lack of power exactly below that level |
| SendRules.SendLevelDecides | synapse/event_auth.py:758-808 | with power levels in force the failure for lack of power is decided by the listed levels and defaults, field by field |
| SendRules.MaySetLevelsExactly | synapse/event_auth.py:880-1000 | power levels may be set exactly if all user ids are valid and no field or entry changes from or to above the sender's level, nor another user's entry unless strictly below it |
| SendRules.MayRedactExactly | synapse/event_auth.py:842-877 | a redaction passes exactly with the level needed, in versions that check later, or between events of one server |
| SendRules.VerdictExactly | synapse/event_auth.py:279-373 | the whole state-dependent check accepts an event if and only if the rules over its raw content do |
| CitationRules.CreateExactly | synapse/event_auth.py:450-485 | a create event passes exactly without previous events, from the room's own server, in a known version, and with a creator |
| CitationRules.SelectionExactly | synapse/event_auth.py:1142-1184 | entry by entry, the selection holds exactly what the rules may need for the event |
| CitationRules.IndependentExactly | synapse/event_auth.py:161-276 | the state-independent check passes exactly if all cited events are stored, of the room, not rejected and selected, no two under one key, and one is the create event |
| SendRules.CreatorRulesUntilLevelsAreSet | synapse/event_auth.py:758-1057 | without a power levels event exactly the joined creator can ban and kick, exactly the creator can send state (under every key that can be written at all), everyone in the room can invite, anyone passes the level check for messages |
| RoomFounding.CreateStartsHistory | synapse/event_auth.py:450-485 | a create event by a user of the room's own server is accepted as the first event, in every version |
| RoomFounding.SecondEventExactly | synapse/event_auth.py:279-373 | among events that pass the state-independent rules, one on top of the create event alone is accepted if and only if it is the join of the creator or, in old versions, sets aliases of its own server, and the sender's server may take part |
| RoomFounding.RoomCanBeFounded | synapse/event_auth.py:450-527 | in every version a user can create a room on their own server and join it |
| RoomRuns.CreateOnlyFirst | synapse/event_auth.py:450-485 | in a valid history an event is a create event if and only if it is the first |
| RoomRuns.CreatorJoinIsSecond | synapse/event_auth.py:512-527 | the exception for the creator's first join can only apply to the second event of a history |
| RoomRuns.PowersStep | synapse/event_auth.py:880-1000 | once set, power levels are only ever replaced by content whose every changed field and entry its sender may change |
| RoomRuns.AllowedChangeKeepsCeiling | synapse/event_auth.py:961-1000 | an allowed change does not raise the highest level any user has |
| RoomRuns.CeilingNeverRises | synapse/event_auth.py:880-1000 | over any stretch of a valid history no user gets above the highest level at its beginning |
| RoomRuns.OthersCannotTouchTop | synapse/event_auth.py:961-1000 | nobody else can change the level or the rank of a strictly highest user |
| RoomRuns.MemberStep | synapse/event_auth.py:497-737 | every membership event of a valid history is one the table of membership rules allows in the state before it |
| RoomRuns.RemovalOutranks | synapse/event_auth.py:688-717 | kicks and bans come from joined users strictly above the target |
| RoomRuns.TopAdminIsStable | synapse/event_auth.py:688-1000 | over any stretch of a valid history a strictly highest user who sends no power levels keeps level and rank and is not removed by anyone else |
| RoomRuns.BanStep | synapse/event_auth.py:688-717 | a ban ends exactly with an event that lifts it, by another, joined, sufficiently powerful user |
| RoomRuns.BansAreSticky | synapse/event_auth.py:497-737 | whoever was banned and no longer is was unbanned in between |
| RoomRuns.JoinStep | synapse/event_auth.py:629-687 | an accepted join was admitted by the creator exception, an earlier membership, an open rule or a voucher |
| RoomRuns.JoinsAreAdmitted | synapse/event_auth.py:497-737 | every joined user was admitted by an event of the history, and every invited one was invited by one |
| RoomRuns.InviteProvenance | synapse/event_auth.py:497-737 | as long as no accepted join rules event has named the public or a supported restricted rule, every joined user is the creator or was invited earlier |
| RoomLaws.LatestWins | synapse/event_auth.py:297-298 | the room state holds, under every key, the last event that set it |
| RoomLaws.PostersAreJoined | synapse/event_auth.py:740-756 | every event but create, member and old alias events was sent by a joined user |
| RoomLaws.PostsHadPower | synapse/event_auth.py:758-808 | with power levels in force, every such event came from a sender at the level its type needs |
| RoomLaws.OthersStateIsTheirs | synapse/event_auth.py:810-839 | no accepted event writes under another user's id, except with MSC3757 under that of somebody outranked |
| RoomLaws.LevelChangesFromAbove | synapse/event_auth.py:985-991 | a listed user's level changes only by their own hand or by that of somebody strictly above them |
| RoomLaws.NewLevelsFromAbove | synapse/event_auth.py:993-1000 | no accepted power levels event sets a level above that of its sender |
| RoomLaws.UnfederatedStaysLocal | synapse/event_auth.py:300-306 | in a room that does not federate every event is from the room's own server |
| RoomLaws.CitationsAreEarlier | synapse/event_auth.py:161-276 | every event cites only earlier accepted state events its rules may need, and the create event among them |
| RateLimiter.MeterReadsLevel | synapse/api/ratelimiting.py:173-190 | the lazily updated count stands for the ideal level at the time of the call |
| RateLimiter.ChargeIsIdeal | synapse/api/ratelimiting.py:173-215 | verdict, returned time and stored entry are those of an ideal bucket, for every rate, burst and cost |
| RateLimiter.RecordAddsExactly | synapse/api/ratelimiting.py:217-245 | recording adds exactly the amount if and only if there is no entry, it has not leaked below empty, or the amount is a refund |
| RateLimiter.RecordedActionsVanish | synapse/api/ratelimiting.py:217-245 | a concrete entry on which five recorded actions leave no trace |
| RateLimiter.PruneUnnoticedExactly | synapse/api/ratelimiting.py:247-264 | no request at a given later time gets another answer because of a prune if and only if the entry is kept, or is empty at the rate of the request, or the bucket neither admits nor leaks anything |
| RateLimiter.PruneNeverNoticedExactly | synapse/api/ratelimiting.py:247-264 | no request from the prune on, at any time and of any size, gets another answer if and only if the entry is kept, or is empty at the requests' rate when pruned, or the bucket neither admits nor leaks anything |
| RateLimiter.PruneUnnoticedByFasterRates | synapse/api/ratelimiting.py:247-264 | requests at the entry's rate or faster get the same answers, refusals and returned times included, with and without a prune |
| RateLimiter.PruneHelpsSlowerCalls | synapse/api/ratelimiting.py:247-264 | a concrete entry whose prune turns a slower call's refusal into a grant |
| RateLimiter.RetryTimeIsExact | synapse/api/ratelimiting.py:190-215 | after an updating call one more action is allowed from the returned time on and not before, for every burst count from one up, and never for a smaller one |
| RateLimiter.RetryTimeIsForOneAction | synapse/api/ratelimiting.py:190-215 | for every burst count and size, repeating a refused request at the returned time succeeds if and only if it asks for at most one action and no more than the burst count |
| RateLimiter.AllowedFrom | synapse/api/ratelimiting.py:173-215 | after an updating call any number of further actions is allowed exactly if it fits the burst count and from the time on at which enough has leaked |
| RateLimiter.NoTimeWithoutLeak | synapse/api/ratelimiting.py:199-215 | a bucket that does not leak gives -1 for a time to come back at |
| RateLimiter.RetryTooEarlyForTwo | synapse/api/ratelimiting.py:190-215 | a concrete refused request for two actions that is refused again at the time it was told to come back |
| RateLimiter.Ratelimiter.constructor | synapse/api/ratelimiting.py:70-89 | starts with no entries and the given defaults |
| RateLimiter.Ratelimiter.CanDoAction | synapse/api/ratelimiting.py:108-215 | answers as the charge function does on the key's entry and stores the result exactly when asked to update, leaving other keys alone |
| RateLimiter.Ratelimiter.RecordAction | synapse/api/ratelimiting.py:217-245 | changes the key's entry by the recorded amount and nothing else |
| RateLimiter.Ratelimiter.PruneMessageCounts | synapse/api/ratelimiting.py:247-264 | the loop removes exactly the entries that are empty at their own rate |
| RateLimiterRuns.LazyRunIsIdeal | synapse/api/ratelimiting.py:173-264 | over any run of calls and prunes every verdict and returned time is that of an ideal bucket that is never pruned |
| RateLimiterRuns.PrunesAreInvisible | synapse/api/ratelimiting.py:247-264 | deleting the prunes from a run at one rate changes no verdict and no returned time |
| RateLimiterRuns.LevelStaysInRange | synapse/api/ratelimiting.py:173-264 | the level stays between empty and the burst count over every run of calls |
| RateLimiterRuns.WindowBound | synapse/api/ratelimiting.py:34-60 | in every window of time at most the burst count plus what leaks during the window is granted |
| PendingQueue.FlushSplits | synapse/notifier.py:404-440 | a flush splits the waiting entries into those that wait on and those it lets through |
| PendingQueue.LetThroughExactly | synapse/types/__init__.py:1219-1223 | a flush lets an entry through exactly if its token has reached the entry's position, for the entry's writer or for all |
| PendingQueue.ReachedQueueEmpties | synapse/notifier.py:404-440 | a flush whose token has reached every waiting entry releases all of them in order |
| PendingQueue.QueueHoldsWaiting | synapse/notifier.py:358-440 | after any appends and flushes the queue holds, in order, exactly the entries no flush has let through yet |
| PendingQueue.FlushReleasesFirstLetThrough | synapse/notifier.py:404-440 | a flush releases, in order, exactly the entries for which it is the first that lets them through |
| PendingQueue.ReleasedOnce | synapse/notifier.py:404-440 | every appended entry either still waits or has exactly one flush that was the first to let it through |
| PendingQueue.EntriesAreConserved | synapse/notifier.py:358-440 | after any appends and flushes the appended entries are exactly those in the queue and those handed out, counted with multiplicity: none lost, invented or handed out twice |
| PendingQueue.LaterTokensReleaseMore | synapse/types/__init__.py:530-556 | a token at or beyond another, for every writer, lets through whatever that one lets through |
| Notifications.UserStream.constructor | synapse/notifier.py:106-127 | a new stream is at the given token, in the given rooms, with nobody listening |
| Notifications.UserStream.UpdateAndFetchDeferreds | synapse/notifier.py:129-150 | moves the stream and hands out all its listeners, leaving none |
| Notifications.UserStream.NewListener | synapse/notifier.py:166-186 | answers at once exactly if the caller's token differs from the stream's, otherwise registers a pending listener |
| Notifications.UserStream.Cancel | synapse/notifier.py:166-186 | a cancelled listener is forgotten and stays unresolved |
| Notifications.Wake | synapse/notifier.py:537-572 | all the selected streams are at the new token and each of their listeners was resolved with it |
| Waiting.WindowsAreContiguous | synapse/notifier.py:622-677 | however the stream moves meanwhile, the stretches given to the callback start at the caller's token, follow each other without gap or overlap, and only the last can have found anything |
| Waiting.SleeperHasSeenAll | synapse/notifier.py:622-677 | in every turn in which the waiter falls asleep, woken later or not, it has looked up to the stream's present token, moves made during the callback included |
| Waiting.EndsCaughtUp | synapse/notifier.py:622-685 | a wait ends with everything looked at if and only if the stream stood still during the last callback, whether something was found, the waiter timed out asleep, or time was up when the callback returned |
| Waiting.Await | synapse/notifier.py:166-186 | registering a listener answers at once exactly if the stream has moved on, and otherwise ends with the first move or the timeout, leaving no listener behind |
| Waiting.WatchStream | synapse/notifier.py:622-677 | the loop, driven by real listeners on a stream that moves while it sleeps and while the callback runs, makes exactly the callbacks of the specification |
| Waiting.WaitForEvents | synapse/notifier.py:594-685 | there is always a callback, the stretches are contiguous from the caller's token, and they end at the stream's present token if and only if the loop made no callback or the stream stood still during the last one |
| Notifications.ConcernsExactly | synapse/notifier.py:404-440 | collecting users and rooms of the released entries selects exactly the users concerned by one, whose own joins count |
| Notifications.OnlyJoinsAddRooms | synapse/notifier.py:420-428 | released entries add exactly the rooms of member events for the user that say join |
| Notifications.Notifier.constructor | synapse/notifier.py:219-240 | a new notifier has a valid, empty index |
| Notifications.Notifier.SelectStreams | synapse/notifier.py:537-559 | looking streams up finds exactly what the two indexes lead to, and what a scan of all streams would if the indexes are inverse |
| Notifications.Notifier.WakeFound | synapse/notifier.py:537-572 | with inverse indexes or without, exactly the streams the indexes lead to move and have their listeners resolved |
| Notifications.Notifier.OnNewEvent | synapse/notifier.py:501-572 | exactly the concerned streams move to the token and have all their listeners resolved; the others keep everything |
| Notifications.Notifier.UserJoinedRoom | synapse/notifier.py:864-869 | adds the room to that user's stream only, keeping the indexes inverse |
| Notifications.Notifier.GetStream | synapse/notifier.py:605-618 | reuses the user's stream or registers a new one, keeping the indexes inverse |
| Notifications.Notifier.RegisterWithKeys | synapse/notifier.py:857-862 | registers the stream under its user and under exactly its rooms; the indexes stay inverse if and only if no other stream of the user was in a room; every listener stays on a registered stream if and only if no other stream of the user had one; a replaced stream is found by its rooms and no longer by its user |
| Notifications.StaleRoomEntry | synapse/notifier.py:605-618 | two registrations for one user in a room leave the first stream in the room index only |
| Notifications.LostWakeup | synapse/notifier.py:605-618 | two registrations for one user: a listener on the first stream stays pending through an event for that user, with valid indexes |
| Notifications.Notifier.Listen | synapse/notifier.py:166-186 | a listener on a registered stream is pending exactly if the stream is at the caller's token |
| Notifications.Notifier.CancelListener | synapse/notifier.py:166-186 | cancelling removes just that listener and keeps the notifier valid |
| Notifications.Notifier.Remove | synapse/notifier.py:152-161 | takes the stream, and only it, out of both indexes |
| Notifications.Notifier.RemoveExpiredStreams | synapse/notifier.py:844-855 | removes exactly the streams without listeners that were last notified more than ten minutes ago |
| Notifications.Notifier.AppendPending | synapse/notifier.py:358-383 | appends the entry at the end of the queue |
| Notifications.Notifier.ReleaseEntries | synapse/notifier.py:404-434 | the loop keeps the held entries, applies the released joins to the right streams and collects all users and rooms of released entries |
| Notifications.Notifier.NotifyPending | synapse/notifier.py:404-440 | a flush wakes exactly the streams concerned by a released entry, adds exactly the rooms joined, and leaves the other streams and the held entries alone |
| EventVisibility.GetStateMap | synapse/visibility.py:295-317 | the state used is the filtered state before the event with the event itself on top |
| EventVisibility.DiscardDenied | synapse/visibility.py:229-241 | exactly the users to whom the event may be sent remain |
| EventVisibility.LoadedStateSuffices | synapse/visibility.py:243-292 | loading the memberships of many users at once changes no single user's verdict |
| EventVisibility.FilterEventForClients | synapse/visibility.py:194-292 | the bulk filter returns exactly the users whom the filter for one user lets see the event |
| EventVisibility.MembershipDecides | synapse/visibility.py:446-518 | the membership check allows exactly joined users, invited ones where invites suffice, the user's own departure, and everybody under a lax visibility |
| EventVisibility.SightIsReference | synapse/visibility.py:320-518 | the ordered checks show an event if and only if it may be sent and a rule by visibility and membership around the event allows it |
| EventVisibility.ErasureHidesExactly | synapse/visibility.py:386-430 | erasing the sender hides an otherwise visible event in exactly one case, and shows only events that were visible in full |
| EventVisibility.ErasureHidesClosing | synapse/visibility.py:386-430 | a concrete event, closing a room to outsiders, that an outsider sees in full but not at all once its sender is erased |
| VisibilityRules.SettingAgrees | synapse/visibility.py:602-615 | the history visibility is that of the event itself or else of the state before it, and shared if missing or unknown |
| VisibilityRules.AroundAgrees | synapse/visibility.py:446-500 | for a user's own membership event join counts if the old or the new membership is join, invite if neither is join and one is invite |
| VisibilityRules.SendableAgrees | synapse/visibility.py:526-563 | clients get no dummy and no alias events, and no messages they ignore or that have expired |
| VisibilityRules.SightExactly | synapse/visibility.py:78-192 | what a user sees of an event, in full, redacted or not at all, with its sender erased or not, is given by the raw content of the event and of the state before it |
| VisibilityRules.OwnJoinsAreSeen | synapse/visibility.py:446-500 | whatever the settings, users see their own joins and departures |
| PortRows.ConvertCells | synapse/_scripts/synapse_port_db.py:976-998 | gives up exactly on rows with a NUL in text outside boolean columns; otherwise the row id goes, boolean columns hold false for null, zero and empty cells and true for all others, and every other cell keeps its value and place |
| PortRows.FlagsSurvive | synapse/_scripts/synapse_port_db.py:976-998 | a boolean column that held 0 or 1 reads back as it was after the port, and null as 0 |
| PortRows.ConvertRows | synapse/_scripts/synapse_port_db.py:966-1000 | the loop converts every row that is not dropped, in order |
| Sweep.FindNext | synapse/_scripts/synapse_port_db.py:476-513 | finds the next row id in the direction of the sweep, if there is one |
| Sweep.Select | synapse/_scripts/synapse_port_db.py:476-513 | returns the ordered batch of the next rows, short only at the end |
| Sweep.NextChunk | synapse/_scripts/synapse_port_db.py:523-528 | the furthest row id of a batch is its last, so a chunk computed by maximum or minimum starts right after the batch |
| Sweep.ForwardBatchCopies | synapse/_scripts/synapse_port_db.py:476-544 | a forward batch holds exactly the rows between the old and the new chunk position |
| Sweep.BackwardBatchCopies | synapse/_scripts/synapse_port_db.py:476-544 | a backward batch holds exactly the rows between the new and the old chunk position |
| Sweep.CopyKeepsPorted | synapse/_scripts/synapse_port_db.py:515-549 | copying a batch each way keeps the target equal to the rows inside the checkpoint, each once |
| Sweep.IdleExactlyWhenExhausted | synapse/_scripts/synapse_port_db.py:515-553 | a pass that finds no rows happens exactly when both sweeps have reached their ends, and changes nothing |
| Sweep.ExhaustedMeansComplete | synapse/_scripts/synapse_port_db.py:435-553 | once both sweeps are at their ends every row appears as often as the source has it |
| PortTable.TablePort.constructor | synapse/_scripts/synapse_port_db.py:344-405 | a table set up afresh holds nothing and its checkpoint covers nothing |
| PortTable.TablePort.ReadBatches | synapse/_scripts/synapse_port_db.py:487-517 | reads the next batch each way and goes on with a direction exactly if it has rows left |
| PortTable.TablePort.CopyBatches | synapse/_scripts/synapse_port_db.py:518-549 | inserts the converted rows and the new checkpoint together, keeping the checkpoint exact |
| PortTable.TablePort.Pass | synapse/_scripts/synapse_port_db.py:487-553 | one pass either finds nothing exactly when done, or makes progress, or dies without effect |
| PortTable.TablePort.HandleTable | synapse/_scripts/synapse_port_db.py:435-553 | whenever the loop stops or dies the checkpoint is exact; it finishes exactly when both sweeps are at their ends |
| PorterRuns.RunKeepsInvariant | synapse/_scripts/synapse_port_db.py:344-553 | every state of every run, restarts included, keeps the invariant of each table no cascade can reach |
| PorterRuns.CheckpointIsExact | synapse/_scripts/synapse_port_db.py:344-405 | at every point of every run: during copying each such table holds exactly the rows inside its checkpoint, an append-only one does so during set-up too, and one that set-up has truncated is empty |
| PorterRuns.FinishedRunIsExact | synapse/_scripts/synapse_port_db.py:344-553 | however often a run is interrupted, when its copy loop ends every source row has been copied exactly once |
| PorterRuns.IgnoredStayEmpty | synapse/_scripts/synapse_port_db.py:915-919 | in no state of any run does an ignored table hold a row |
| PorterRuns.SelfReferencesAreFine | synapse/_scripts/synapse_port_db.py:407-433 | a table that references only itself is ready in every round |
| PorterRuns.RoundsAreOrderly | synapse/_scripts/synapse_port_db.py:927-953 | in every state of every run the tables of the finished rounds can be ordered so that each follows all it references |
| PorterRuns.FinishedMeansPortable | synapse/_scripts/synapse_port_db.py:927-953 | a run whose copy loop ends had no table that reaches a cycle of references or a table that is not copied |
| PorterCascade.FinishesExactly | synapse/_scripts/synapse_port_db.py:927-953 | a port can be brought to its end if and only if no table to copy reaches a cycle of references or a table that is not copied |
| PorterCascade.CycleNeverFinishes | synapse/_scripts/synapse_port_db.py:927-953 | two tables that reference each other: no run of the port ever ends |
| PorterCascade.CascadeLosesRows | synapse/_scripts/synapse_port_db.py:381-398 | for a plan that can finish and an append-only table that references a truncated one, a run in the order of the copy loop that finishes with the table empty |
| PorterCascade.ExactlyOnceExactly | synapse/_scripts/synapse_port_db.py:344-553 | all finished runs copy a non-empty table exactly once if and only if no cascade can reach it past its checkpoint or no run finishes at all |
| PortSchedule.WalkFails | synapse/_scripts/synapse_port_db.py:927-953 | if every table left waits for another, each of them reaches a cycle or a table that is not copied |
| PortSchedule.NothingReady | synapse/_scripts/synapse_port_db.py:927-953 | a round without ready tables means that none of those left can ever be copied |
| PortSchedule.PortInOrder | synapse/_scripts/synapse_port_db.py:927-953 | the tables copied are exactly those that reach neither a cycle nor a missing table, each once and after all it references; the loop ends exactly if these are all |
| Components.HomeServer.constructor | synapse/server.py:194-232 | nothing is built and nothing is being built |
| Components.HomeServer.FoundCycle | synapse/server.py:216-218 | asking for a component that is being built proves a dependency cycle |
| Components.HomeServer.AskForNeeds | synapse/server.py:220-226 | either everything a builder asks for is built, or a cycle is reachable; nothing else is built |
| Components.HomeServer.Get | synapse/server.py:211-230 | succeeds if and only if the component reaches no cycle, builds only what it needs, and resets every building flag on failure too |
| Components.HomeServer.GetComponent | synapse/server.py:211-230 | from outside, success builds exactly the components reached, no builder of a built component runs again, and failure leaves the component unbuilt |
| WorkerNames.ApplyMultipliers | docker/configure_workers_and_start.py:524-563 | the loop expands each request in order, and fails exactly if some count is not a number |
| WorkerLaws.ExpansionAt | docker/configure_workers_and_start.py:545-558 | spaces around name and count do not matter, and the count says how many copies of the stripped name |
| WorkerNames.NameInjective | docker/configure_workers_and_start.py:663-719 | a base name that does not end in a digit and the number after it can be read off the worker's name |
| WorkerNames.BaseEndsInNonDigit | docker/configure_workers_and_start.py:663-689 | chosen names, and names made up from known types, never end in a digit |
| WorkerLaws.StripStrips | docker/configure_workers_and_start.py:583-598 | stripping takes spaces, and nothing else, off both ends until neither is a space |
| WorkerLaws.SplitUndoesJoin | docker/configure_workers_and_start.py:583-598 | splitting a made-up name gives back the types it was joined from |
| WorkerLaws.CountsAreHonoured | docker/configure_workers_and_start.py:524-563 | `name:n` asks for n workers of that name, and a negative count for none |
| WorkerLaws.CountErrorsExactly | docker/configure_workers_and_start.py:545-558 | a request with a count fails if and only if the count is not a number, and asks for nothing if and only if it is zero or negative |
| WorkerLaws.NameFromTypes | docker/configure_workers_and_start.py:680-689 | without a chosen name, equal sets of types get the same name however they were written |
| WorkerSyntax.SpacesExactly | docker/configure_workers_and_start.py:583-598 | the characters that stripping removes, by code point |
| WorkerSyntax.NumbersExactly | docker/configure_workers_and_start.py:545-556 | counts are an optional sign and digits with single underscores between them, and the sign decides |
| WorkerSyntax.UnderscoresAreIgnored | docker/configure_workers_and_start.py:545-556 | an underscore between digits does not change the number |
| WorkerSyntax.NamesExactly | docker/configure_workers_and_start.py:665-676 | chosen names are letters, digits, _, + and -, not ending with a digit |
| WorkerSyntax.OrderExactly | docker/configure_workers_and_start.py:686-689 | types are sorted by the first character in which they differ, a beginning before the whole |
| WorkerSyntax.ChosenNames | docker/configure_workers_and_start.py:653-684 | `name=type+type` asks for one worker of that name with exactly those types, or fails for a bad name |
| WorkerSyntax.OneEqualsSign | docker/configure_workers_and_start.py:656-660 | a request with more than one = fails |
| WorkerSyntax.TwoOfAKind | docker/configure_workers_and_start.py:566-580 | which known types there may be two workers of, and which one only |
| WorkerParser.NamesAreDistinct | docker/configure_workers_and_start.py:716-719 | no two workers get the same name |
| WorkerParser.FirstStandsForAll | docker/configure_workers_and_start.py:721-730 | the worker numbered 1 is always there to compare with, and has the types of all that share its base name |
| WorkerParser.CheckTypes | docker/configure_workers_and_start.py:695-714 | accepts exactly known types that are new or may be sharded, and counts them as seen |
| WorkerParser.AddWorker | docker/configure_workers_and_start.py:695-732 | accepts a request exactly if it is compatible with all before, and keeps counters and names in step |
| WorkerParser.ParseWorkerTypes | docker/configure_workers_and_start.py:613-734 | succeeds if and only if every request is well-formed, of known types, with no unshardable type twice and one type set per name; then there is exactly one worker per request, under distinct names |

## Left out

- Conflict resolution: histories are linear, each event on top of the one before; forks and state resolution are not modelled.
- Values that are not integers where a level is expected, and levels given as strings in old room versions.
- Signature verification: a signed block is the set of public keys it verifies under.
- The syntax of server names is a parameter of the rules; size limits and event format validation are not modelled.
- A cited auth event whose id is the empty string, and auth events fetched in batches.
- Member events without a membership count as no membership where visibility is decided.
- `filter_events_for_client` refers to `retention_policies` where it was not set if `filter_send_to_client` is false; only calls that set it are modelled.
- `filter_events_for_server` and its database queries.
- Floating point: times, rates and counts are exact reals.
- RateLimiterRuns.WindowBound: covers calls at one rate and burst count, because an override changes the bucket's size between calls; single calls are covered for every rate and burst count.
- RateLimiterRuns.LevelStaysInRange: covers runs of `can_do_action` and prunes only, because `record_action` may exceed the burst count on purpose.
- Ratelimit overrides from the database, the exemption of application services, and the pause before a refusal.
- Races between tasks: `GetStream` looks a stream up and registers it in one step, and a flush is one step; `on_un_partial_stated_room`, application services, pushers and replication callbacks.
- Deferreds are pending, resolved or cancelled; callbacks run by a resolved deferred are not modelled.
- Waiting.WaitForEvents: how the stream moves and what the callback finds are parameters, and the callback never answers `None`.
- Sweep.Select: a SELECT is modelled by the batch it must return, so the SQL text is not.
- `user_directory_stream_pos`, which gets one fixed row instead of its own, `event_search`, `sent_transactions`, sequences, progress display and the counts of rows to port.
- PortSchedule.PortInOrder: the rounds that would go round forever end with `finished` false.
- Components.HomeServer.Get: one home server object, although the building flags are shared by all objects of a process; builders that fail for reasons of their own are a fixed part of the builder.
- Worker configuration files, and characters outside ASCII in spaces and digits of worker requests.
