# Verified models of the recovery updater and the GNSS stack

This project models the stateful cores of an Android device tree in Dafny and proves what they keep:

* `BoyerMoore.dfy`, `VersionCompare.dfy`: the string search and the version comparison of the recovery updater.
* `AgpsProtocol.dfy`, `Agps.dfy`: the AGPS data-connection state machine and its manager.
* `SetMap.dfy`, `OsObserver.dfy`: the map of sets, and the subscription relations and fan-out built on it.
* `TripProtocol.dfy`, `TripBatching.dfy`: many trips on one distance counter of the batching engine.
* `TrackingProtocol.dfy`, `Tracking.dfy`: many tracking sessions on one session of the positioning engine.
* `GeofenceProtocol.dfy`, `Geofence.dfy`: the two geofence maps under late answers, client removals and engine restarts.
* `SvIdConfig.dfy`: satellite blacklists as lists and as 64-bit masks.
* `AdapterArray.dfy`: the compact array of adapters and the delivery loops.
* `Wrappers.dfy`: an option type.

The code that works in place is written as methods and classes with the source's fields and loops. Each method is
proved against a step function on values (the `...Protocol` modules, or functions beside the class), and the laws of
whole runs are lemmas about that step function: invariants over every run, exact conditions under which a law is kept,
round trips, and conservation laws between what was asked for and what was answered.

`dafny verify dfyconfig.toml` checks everything.

## Main results

Runs are arbitrary sequences of events from the initial state; "exactly" is an if-and-only-if for all inputs.

| result | member |
|---|---|
| The search equals a plain scan on every text exactly for borderless or unary patterns. | `BoyerMoore.CompletenessCharacterised`, `BoyerMoore.Search` |
| The version comparison reads outside its second string exactly for the stated pairs, and is a preorder on one length. | `VersionCompare.VersionCompare`, `VersionsArePreordered` |
| It is right for all strings of a length exactly if cutting the second one is harmless. | `VersionCompare.RightExactlyWhenCutIsHarmless` |
| In every run of the AGPS machine, and of any manager calls, admissions, connections and notices balance. | `AgpsProtocol.RunsKeepInv`, `ManagerKeepsLaws` |
| Each event of the framework in each phase has its stated outcome: phase, list, and who is told what, once. | `AgpsProtocol.GrantOpens`, `DenialEnds`, `LossEnds`, `ReleaseCompletes`, `UnsubscribeLeaves`, `ReportReaches` |
| The manager's phases stay supported exactly if each modem reset finds both machines RELEASED. | `AgpsProtocol.ManagerStaysSupportedExactly` |
| In every run the framework knows exactly the items with a client. | `OsObserver.RunsStayInStep` |
| In every run the two subscription maps are transposes all along exactly without updates by subscribed clients. | `OsObserver.RunsStayTransposedExactly` |
| In every run what the framework knows is exactly what the clients' requests, updates included, leave listed. | `OsObserver.AnnouncedExactly` |
| In every run the cache holds the last recorded values, and the observer is connected once it has been told to. | `OsObserver.CacheHoldsLast`, `ConnectedExactly` |
| One notify sends each client exactly its news, once. | `OsObserver.FanOutIsExact`, `ToldExactly` |
| In every run each trip's account of distance covered and lost balances; completion is exact. | `TripProtocol.RunsKeepInv`, `ReportCompletesExactly` |
| In every run no trip is due late exactly if every start and stop meets a condition on the state it finds. | `TripProtocol.RunsStayOnTimeExactly` |
| In every run the interval in force undercuts no trip's exactly if no stop or report passes a zero interval over, and it is always some live trip's; so with positive intervals it is the least. | `TripProtocol.RunsServeIntervalsExactly`, `RunsStayAsked`, `RunsStayPaced` |
| In every run nothing is lost exactly if every restart forced by a newcomer finds all trips freshly reported. | `TripProtocol.RunsLoseNothingExactly` |
| In every run the engine is at the smallest live tracking interval exactly if two kinds of update do not occur. | `TrackingProtocol.RunsStayFitExactly` |
| In every run all sessions have the power mode they state exactly if none of the stated events occurs. | `TrackingProtocol.RunsStayPoweredExactly`, `StatedRunsStayPoweredExactly` |
| In every run the lists hold exactly the live sessions with the options last asked for. | `TrackingProtocol.SessionsHoldWhatTheyAsked` |
| In every run each session is sent as many answers as commands were given for it. | `TrackingProtocol.AnswersMatchCommands` |
| The geofence maps stay consistent under every interleaving of requests, late answers, client stops and restarts. | `GeofenceProtocol.RunsKeepInv`, `MapsAreInverse` |
| An answer, however late, reaches exactly the geofence asked for. | `GeofenceProtocol.AcceptedAddIsExact`, `AcceptedChangeIsExact`, `AcceptedRemovalIsExact`, `ReaddAcceptedIsExact`, `AcceptedForgetIsExact` |
| A restart restores the stored geofences, whatever the order of answers, and re-pauses exactly the paused ones, once. | `GeofenceProtocol.RestartRestores`, `RestartRepauses`, `SecondRestartResumes` |
| Masks survive the round trip through a list, on every machine, exactly if all ones or with bits 0 to 30 only. | `SvIdConfig.RoundTripExactly`, `EncodedIsExact`, `DecodedIsExact` |
| The adapter array holds exactly the registered adapters, and the link is open exactly while there is one. | `AdapterArray.RunsStayExact`, `LinkFollowsAdapters` |

## What turned out

Some of what the code or its comments promise holds only under a condition. Each such case has a lemma with the exact
condition and one with an input, or a run from the initial state, that breaks it.

* The search for a pattern that overlaps itself can miss an occurrence, because the good-suffix table records one past
  a border's start (`BoyerMoore.CompletenessCharacterised`, `AbaMissedInAcaba`). The pattern in use is not affected.
* `versionCompare` bounds its second inner loop by the length of the first string
  (`VersionCompare.RightExactlyWhenCutIsHarmless`, `OneEqualsTwelve`). When the second string is shorter by two or more
  and its numbers are a proper beginning of the first one's, it reads outside the second string (`VersionCompare`,
  `OneOutlived`).
* `LocUnorderedSetMap::update` is documented to return the values that are in effect removed, and returns the ones that
  are kept (gps/utils/LocUnorderedSetMap.h:173-187). So an updated subscription takes the client off the items it keeps
  (`OsObserver.TransposedAfterExactlyIfHarmless`, `UpdateToSameItemsSilences`). The model follows the code.
* Stopping one of several trips re-arms the engine from what was last reported, or for the interval alone with the whole
  old target, so it may be due late (`TripProtocol.RearmStaysOnTimeExactly`, `StopStaysOnTimeExactly`,
  `StopForgetsUnreported`, `IntervalChangeStartsOver`). So may a newcomer that finds the engine past its target
  (`StartStaysOnTimeExactly`, `LateNewcomerDelays`). Restarts forced by newcomers cost the other trips what they covered
  since their last report (`NewcomerCosts`, `RunsLoseNothingExactly`). The scan for the least reporting interval takes
  zero for "none yet", so a trip with a zero interval can be passed over, by a stop or a report
  (`RunsServeIntervalsExactly`, `ZeroIntervalForgotten`, `ZeroIntervalForgottenAtReport`).
* Telling a time-based session a minimum distance on an engine without distance tracking stops the engine under it
  (`TrackingProtocol.UnservedUpdateServesExactly`, `LoneSessionLosesEngine`).
* A restart for a shorter interval may take the power mode away from a session that asked for a stronger one
  (`StatedModesLostExactly`, `ThirdSessionWeakens`). A session that states no power mode may hide the mode of a later
  one, or take back that of an earlier one (`JoinKeepsPowerExactly`, `UnstatedModeHides`, `UnstatedModeTakesOver`).
  With such a session live the stop of another one, or an engine reset, may lose a mode too (`LeaveKeepsPowerExactly`,
  `StopLosesMode`, `EngineUpIsExact`, `ResetLosesMode`).
* An engine restart before a stopped client's removals are confirmed brings its geofences back
  (`GeofenceProtocol.RestartKeepsKeysExactly`, `StoppedClientReturns`). A paused geofence is paused again after one
  restart but stored as not paused, so it is active after the next one (`RestartKeepsPausedExactly`, `RestartRepauses`,
  `SecondRestartResumes`, `PausedGeofenceResumes`).
* A satellite whose mask bit is 31 or higher is encoded wrongly, because an `int` one is shifted
  (`SvIdConfig.ShiftIsRightExactly`, `RoundTripExactly`).
* A modem reset while a connection is wanted leaves an AGPS machine without subscribers in its old phase
  (`AgpsProtocol.ResetKeepsSupportExactly`, `ResetLeavesPhaseUnsupported`).

## Conventions and assumptions

* A queued message is one atomic step. Notification callbacks do not come back into the object that calls them.
* `unsigned long` has 64 bits and `int` 32. The search needs the text length plus twice the pattern length to fit an
  `int`, and a non-empty pattern: for an empty one the source fills its tables before it tests the length.
* Subscribers are deleted by handle. The source compares the handles through a pointer into the node it frees.
* A report to an AGPS machine goes through a pointer that may be null; `Agps.AgpsManager.Report` requires the machine.
* A completed trip's fields are read before the trip is erased; the source reads them just after. In `SetMap` the
  common values are taken out without advancing an erased iterator, and a key is noted before its entry is erased.
* Copying a report into a cached data item counts as an update exactly if the value differs; creating one succeeds.
* Engine calls for trips and tracking succeed and are answered before the next event, and distances stay below 2^31.
  Geofence calls may fail and are answered in any order, at any time, or never.
* Hardware ids of geofences, session ids and geofence ids are never handed out twice.
* Maps with an order the code depends on are sequences in key order; other maps are walked in any order.

## Model

| member | source | states |
|---|---|---|
| `BoyerMoore.MaxSuffixLen` | recovery/recovery_updater.cpp:53-61 | the length returned is that of the longest common suffix of the pattern and its part ending at `p`, cut off at `p`: all characters before it agree, and the next ones differ unless `p` was reached |
| `BoyerMoore.MakeDelta1` | recovery/recovery_updater.cpp:66-75 | after the two loops the entry of every byte is the distance from the last character back to its last earlier occurrence, or the length if it has none |
| `BoyerMoore.PrefixPass` | recovery/recovery_updater.cpp:82-88 | after the first loop every entry is the move to one past the nearest border start, counted from the mismatch |
| `BoyerMoore.SuffixPass` | recovery/recovery_updater.cpp:90-96 | after the second loop, which overwrites rows in whatever order the suffixes come, every entry is the smallest good shift, or else what the first loop left |
| `BoyerMoore.MakeDelta2` | recovery/recovery_updater.cpp:78-97 | both loops together leave exactly the good-suffix table |
| `BoyerMoore.OneGoodShiftPerEnd` | recovery/recovery_updater.cpp:90-96 | for one suffix end there is exactly one row whose mismatch it may serve, the one the code writes |
| `BoyerMoore.Delta1From` | recovery/recovery_updater.cpp:63-75 | the entry is the distance to the nearest earlier occurrence of the byte: none is nearer, and one is there unless the entry is the length |
| `BoyerMoore.GoodShiftIsSmallest` | recovery/recovery_updater.cpp:77-97 | if the suffix after `j` recurs inside the pattern behind a different character, the entry is the smallest such distance; otherwise it is the value of the first loop |
| `BoyerMoore.StrNCmpMeansBorder` | recovery/recovery_updater.cpp:84 | for a pattern without NUL the `strncmp` test holds exactly if the suffix from `p` is a prefix |
| `BoyerMoore.MatchBackwards` | recovery/recovery_updater.cpp:114-118 | the inner loop stops at the rightmost mismatch of the window, or before its start if it matches |
| `BoyerMoore.SlideWindow` | recovery/recovery_updater.cpp:112-125 | the outer loop ends, reads only inside text, pattern and tables, keeps `i` an `int`, and answers what the window scan answers |
| `BoyerMoore.Search` | recovery/recovery_updater.cpp:99-126 | for every text and non-empty pattern a non-null answer is an occurrence, and for a borderless or unary pattern the answer is the leftmost one, null exactly when there is none |
| `BoyerMoore.MoveWindow` | recovery/recovery_updater.cpp:122 | adding the larger table entry at the mismatch moves the window strictly right and loses nothing of the answer |
| `BoyerMoore.ScanIsSound` | recovery/recovery_updater.cpp:99-126 | every answer is a genuine occurrence, borders or not |
| `BoyerMoore.ShiftIsSafe` | recovery/recovery_updater.cpp:66-97 | for a borderless or unary pattern neither table jumps over an occurrence |
| `BoyerMoore.NothingSkipped` | recovery/recovery_updater.cpp:112-123 | no occurrence lies strictly between a window and the next one |
| `BoyerMoore.ScanFindsLeftmost` | recovery/recovery_updater.cpp:99-126 | started where nothing lies before it, the scan answers the leftmost occurrence |
| `BoyerMoore.NearestBorder` | recovery/recovery_updater.cpp:84-85 | the first loop tests the suffix starting at `p` but records `p + 1` |
| `BoyerMoore.NoBorderRecorded` | recovery/recovery_updater.cpp:82-88 | without a border from there on it records the last position |
| `BoyerMoore.BorderIsOvershot` | recovery/recovery_updater.cpp:84-85 | for every other pattern there is a text with an occurrence the search jumps over |
| `BoyerMoore.CompletenessCharacterised` | recovery/recovery_updater.cpp:99-126 | the search agrees with a plain scan on every text if, and for a NUL-free pattern only if, the pattern is borderless or repeats one character |
| `BoyerMoore.AbaMissedInAcaba` | recovery/recovery_updater.cpp:84-85 | "aba" is missed in "acaba" |
| `BoyerMoore.VersionStringSearchIsExact` | recovery/recovery_updater.cpp:46-47 | the one pattern in use is NUL-free and borderless, so its search is exact on every image |
| `VersionCompare.ReadNumber` | recovery/recovery_updater.cpp:208-217 | one inner loop reads the maximal run of digits modulo the word size and stops at the character that ends it; it reads outside the string exactly if its bound lies beyond it |
| `VersionCompare.DigitsAreDecimal` | recovery/recovery_updater.cpp:208-217 | the digits are the ten decimal ones, each with its value |
| `VersionCompare.CompareLoop` | recovery/recovery_updater.cpp:206-230 | the loop over both strings reads the same numbers on both sides, stops at the first that differ, and runs out of the second string exactly if its numbers end first while the first string has two characters more |
| `VersionCompare.CompareCut` | recovery/recovery_updater.cpp:206-230 | reads outside the second string exactly if that is shorter by two or more and its numbers are a proper beginning of those of the first; otherwise the answer is the comparison of both, the second cut to the bound of the loop |
| `VersionCompare.VersionCompare` | recovery/recovery_updater.cpp:201-231 | the same exact condition for every pair of strings, and the comparison proper whenever the first string is at least as long as the second |
| `VersionCompare.NumbersOfJoin` | recovery/recovery_updater.cpp:202-217 | the numbers read from digit strings joined by non-digits are those numbers modulo 2^64 |
| `VersionCompare.CompareByFirstDifference` | recovery/recovery_updater.cpp:219-222 | the sign is that of the first position where the zero-padded sequences differ, and zero exactly if there is none |
| `VersionCompare.CompareAntisymmetric` | recovery/recovery_updater.cpp:219-222 | swapping the arguments flips the sign |
| `VersionCompare.CompareTransitive` | recovery/recovery_updater.cpp:219-222 | the comparison is transitive, strictly so if one of the two steps is strict |
| `VersionCompare.VersionsArePreordered` | recovery/recovery_updater.cpp:200-231 | on strings of one length the answers form a total preorder |
| `VersionCompare.RightExactlyWhenCutIsHarmless` | recovery/recovery_updater.cpp:214 | against a second string all first strings of length `n` are answered rightly exactly if cutting the second string to `n` leaves its numbers equal |
| `VersionCompare.OneEqualsTwelve` | recovery/recovery_updater.cpp:214 | "1" against "12" is answered as equal, and "12" against "1" as greater |
| `VersionCompare.OneOutlived` | recovery/recovery_updater.cpp:214 | "1.0" against "1" reads outside the second string, while "201" against "1" is answered |
| `AgpsProtocol.ListStaysSound` | gps/gnss/Agps.cpp:73-283 | handles in the list stay distinct, and RELEASED implies an empty list |
| `AgpsProtocol.TellReachesOnce` | gps/gnss/Agps.cpp:310-343 | a round of notices reaches each addressed subscriber exactly once and nobody else |
| `AgpsProtocol.TellSettles` | gps/gnss/Agps.cpp:310-343 | after a round of notices exactly its addressees have it as their last word |
| `AgpsProtocol.WithoutKeeps` | gps/gnss/Agps.cpp:320-336 | deleting while traversing takes out exactly the addressed subscribers |
| `AgpsProtocol.AdmissionsStayBalanced` | gps/gnss/Agps.cpp:73-283 | every event keeps admissions equal to closes, open failures and modem-reset drops, plus one if still listed, for every handle |
| `AgpsProtocol.ConnectionsStayBalanced` | gps/gnss/Agps.cpp:73-308 | every event keeps requests to the framework equal to releases, denials while PENDING and losses while ACQUIRED, plus one exactly in PENDING or ACQUIRED |
| `AgpsProtocol.OpenStaysKnown` | gps/gnss/Agps.cpp:73-283 | every event keeps active subscribers told of an open connection exactly while ACQUIRED, and leaves nobody off the list believing in one |
| `AgpsProtocol.GrantOpens` | gps/gnss/Agps.cpp:173-194 | a grant in PENDING leads to ACQUIRED, keeps the list, sends each active subscriber one open-success, after which it knows the connection is open, and sends nothing else |
| `AgpsProtocol.DenialEnds` | gps/gnss/Agps.cpp:273-278 | a denial in PENDING leads to RELEASED and an empty list and sends each subscriber one open-failure, and nothing else |
| `AgpsProtocol.LossEnds` | gps/gnss/Agps.cpp:206-213 | a loss in ACQUIRED leads to RELEASED and an empty list and sends each subscriber one close, and nothing else |
| `AgpsProtocol.ReleaseCompletes` | gps/gnss/Agps.cpp:215-271 | the end of a release in RELEASING sends each inactive subscriber one close and takes it off the list, keeps the active ones, and exactly if there are some requests the connection again and leads to PENDING, else to RELEASED |
| `AgpsProtocol.OtherReportsAreIgnored` | gps/gnss/Agps.cpp:173-283 | any other report of the framework changes nothing |
| `AgpsProtocol.ResetDrops` | gps/gnss/Agps.cpp:495-506 | a modem reset drops everyone once, in whatever phase, and neither asks for nor sends anything |
| `AgpsProtocol.SubscribeJoins` | gps/gnss/Agps.cpp:73-107 | a subscription puts the subscriber on the list unless its handle is there, requests the connection in RELEASED, which leads to PENDING, and is told of the open one in ACQUIRED; nobody else is touched |
| `AgpsProtocol.UnsubscribeLeaves` | gps/gnss/Agps.cpp:109-171 | a subscriber that does not wait is told of the close at once and leaves the list, one that waits stays on it, inactive; when no active one is left the connection is released, once, and the phase is RELEASED or RELEASING by whether anybody is listed |
| `AgpsProtocol.UnsubscribeReleased` | gps/gnss/Agps.cpp:113-116 | one that leaves in RELEASED is only told of the close |
| `AgpsProtocol.StepKeepsInv` | gps/gnss/Agps.cpp:41-67 | every event keeps all four laws together |
| `AgpsProtocol.RunsKeepInv` | gps/gnss/Agps.cpp:41-67 | they hold after every run |
| `AgpsProtocol.StepKeepsSupport` | gps/gnss/Agps.cpp:109-283 | every event but a modem reset keeps the phase supported: someone active while PENDING or ACQUIRED, someone listed while RELEASING |
| `AgpsProtocol.PhaseIsSupported` | gps/gnss/Agps.cpp:73-283 | so the phase is supported in every run without a modem reset |
| `AgpsProtocol.ResetKeepsSupportExactly` | gps/gnss/Agps.cpp:495-506 | a modem reset keeps the phase supported exactly in RELEASED |
| `AgpsProtocol.ResetLeavesPhaseUnsupported` | gps/gnss/Agps.cpp:495-506 | one subscriber and a modem reset leave the machine PENDING with an empty list |
| `AgpsProtocol.ReleasingUnreachable` | gps/gnss/Agps.cpp:588-592 | with subscribers that do not wait for the close, as the manager makes them, RELEASING is never entered and nobody is ever inactive |
| `AgpsProtocol.ManagerMakesRuns` | gps/gnss/Agps.cpp:514-671 | whatever calls the manager gets, each of its machines only makes runs of the protocol |
| `AgpsProtocol.ManagerKeepsLaws` | gps/gnss/Agps.cpp:514-671 | so all laws hold of both machines after any calls, and neither is ever RELEASING |
| `AgpsProtocol.RequestReaches` | gps/gnss/Agps.cpp:563-597 | a request puts its handle on the list of the machine for its type, or is rejected if there is none; the other machine is not touched |
| `AgpsProtocol.ReportReaches` | gps/gnss/Agps.cpp:627-662 | an open-success in PENDING opens the connection of the machine for the type, an open-failure in PENDING and a close in ACQUIRED end it, either of these completes a release, and anything else changes nothing |
| `AgpsProtocol.ReleaseReaches` | gps/gnss/Agps.cpp:599-625 | a release reaches the machine that lists the handle, the AGNSS one first, and leaves it no active subscriber with that handle; it is ignored if none does |
| `AgpsProtocol.CreateAndResetReach` | gps/gnss/Agps.cpp:514-671 | a creation makes exactly the machines asked for that are missing, RELEASED and empty; a modem reset empties both and keeps their phases |
| `AgpsProtocol.CallKeepsSupportExactly` | gps/gnss/Agps.cpp:514-671 | a call to the manager keeps the phases of both machines supported exactly unless it is a modem reset that finds one of them not RELEASED |
| `AgpsProtocol.ManagerStaysSupportedExactly` | gps/gnss/Agps.cpp:514-671 | in every sequence of calls both phases are supported all along exactly if every modem reset finds both machines RELEASED, so always without one |
| `Agps.AgpsStateMachine.AddSubscriber` | gps/gnss/Agps.cpp:392-411 | appends a clone, and logs an admission, unless the handle is listed already |
| `Agps.AgpsStateMachine.DeleteSubscriber` | gps/gnss/Agps.cpp:413-430 | erasing while iterating takes out exactly the subscribers with the handle and keeps the order of the rest |
| `Agps.AgpsStateMachine.NotifyEventToSubscriber` | gps/gnss/Agps.cpp:345-379 | logs one notice to the handle and, if asked, takes it off the list |
| `Agps.AgpsStateMachine.NotifyAllSubscribers` | gps/gnss/Agps.cpp:310-343 | the erasing loop tells each addressed subscriber once, in list order, and takes out exactly those if asked |
| `Agps.AgpsStateMachine.DropAllSubscribers` | gps/gnss/Agps.cpp:495-506 | the modem reset of the protocol: everyone is dropped once, the phase stays |
| `Agps.AgpsStateMachine.ProcessSubscribe` | gps/gnss/Agps.cpp:73-107 | changes the machine as the SUBSCRIBE event of the protocol |
| `Agps.AgpsStateMachine.RetireCurrent` | gps/gnss/Agps.cpp:127-166 | a leaving subscriber is marked inactive if it waits for the close, else told of the close and deleted |
| `Agps.AgpsStateMachine.ProcessUnsubscribe` | gps/gnss/Agps.cpp:109-171 | changes the machine as the UNSUBSCRIBE event of the protocol |
| `Agps.AgpsStateMachine.ProcessGranted` | gps/gnss/Agps.cpp:173-194 | changes the machine as the GRANTED event of the protocol |
| `Agps.AgpsStateMachine.ProcessReleased` | gps/gnss/Agps.cpp:196-241 | changes the machine as the RELEASED event of the protocol |
| `Agps.AgpsStateMachine.ProcessDenied` | gps/gnss/Agps.cpp:243-283 | changes the machine as the DENIED event of the protocol |
| `Agps.AgpsManager.CreateAgpsStateMachines` | gps/gnss/Agps.cpp:514-535 | makes the machines asked for that are not there yet, and keeps the others |
| `Agps.AgpsManager.RequestATL` | gps/gnss/Agps.cpp:563-597 | changes both machines as the request of the protocol; a request without a machine is rejected |
| `Agps.AgpsManager.ReleaseATL` | gps/gnss/Agps.cpp:599-625 | changes both machines as the release of the protocol: the first machine that lists the handle takes it |
| `Agps.AgpsManager.HandleModemSSR` | gps/gnss/Agps.cpp:664-671 | resets both machines, as the modem reset of the protocol |
| `Agps.TraverseAll` | gps/gnss/Agps.cpp:310-430 | a traversal that erases as it goes visits each original member once: it tells and takes out exactly the addressed |
| `SetMap.LocUnorderedSetMap.TrimSet` | gps/utils/LocUnorderedSetMap.h:41-51 | takes out exactly the given values and answers those that were there |
| `SetMap.LocUnorderedSetMap.RemoveAndReturnIntersect` | gps/utils/LocUnorderedSetMap.h:53-70 | answers the intersection and leaves the two differences |
| `SetMap.LocUnorderedSetMap.TrimOrRemove` | gps/utils/LocUnorderedSetMap.h:123-139 | takes the values out from under all keys and drops emptied entries; answers the keys dropped and the values removed |
| `SetMap.LocUnorderedSetMap.AddOne` | gps/utils/LocUnorderedSetMap.h:141-155 | adds the values under the key; true exactly if the entry is new |
| `SetMap.LocUnorderedSetMap.Add` | gps/utils/LocUnorderedSetMap.h:157-171 | adds the values under each key and answers the keys that are new |
| `SetMap.LocUnorderedSetMap.Update` | gps/utils/LocUnorderedSetMap.h:173-187 | puts the new set under the key; answers the values kept and leaves the values that are new to it |
| `SetMap.TrimmedIsExact` | gps/utils/LocUnorderedSetMap.h:123-139 | a value stays under a key exactly unless both are among those trimmed, and an entry is dropped exactly if it is emptied |
| `SetMap.AddedIsExact` | gps/utils/LocUnorderedSetMap.h:141-171 | a value is under a key afterwards exactly if it was or both are among those added; adding no values adds no keys |
| `SetMap.ReplacedIsExact` | gps/utils/LocUnorderedSetMap.h:173-187 | the key holds exactly the new values afterwards, and no entry if there are none; other keys are as they were |
| `OsObserver.StepKeepsInStep` | gps/core/SystemStatusOsObserver.cpp:62-291 | every request keeps items listed exactly while they have a client and, once the subscription object is set, announced exactly while listed |
| `OsObserver.RunsStayInStep` | gps/core/SystemStatusOsObserver.cpp:62-291 | this holds after every run, updates included |
| `OsObserver.ConnectedExactly` | gps/core/SystemStatusOsObserver.cpp:62-90 | in every run the observer is connected exactly once it has been given a subscription object |
| `OsObserver.LinkAfterUpdate` | gps/core/SystemStatusOsObserver.cpp:140-210 | after an update the client side holds the new set, while on the item side the client stays exactly where the old and the new set differ |
| `OsObserver.TransposedAfterExactlyIfHarmless` | gps/core/SystemStatusOsObserver.cpp:140-210 | a step keeps the two sides transposes of each other exactly if it is not an update by a client that has subscriptions |
| `OsObserver.RunsStayTransposed` | gps/core/SystemStatusOsObserver.cpp:62-291 | so they are transposes in every run whose updates come from clients without subscriptions |
| `OsObserver.RunsStayTransposedExactly` | gps/core/SystemStatusOsObserver.cpp:62-291 | in every run they are transposes all along exactly if every update comes from a client without subscriptions |
| `OsObserver.ItemsListExactly` | gps/core/SystemStatusOsObserver.cpp:62-291 | in every run an item lists a client exactly according to what the client has asked for: an update takes it off what it asks for again and leaves it on what it drops |
| `OsObserver.AnnouncedExactly` | gps/core/SystemStatusOsObserver.cpp:62-291 | in every run, updates included, the framework has been told of exactly the items that list some client so, as soon as there is a subscription object, and of nothing before |
| `OsObserver.FanOutIsExact` | gps/core/SystemStatusOsObserver.cpp:308-341 | with transposed sides one notify sends each client one message, with exactly the updated items it subscribes to and their cached values, none if there are none of those, and nothing else; each message counts once |
| `OsObserver.UpdatedExactly` | gps/core/SystemStatusOsObserver.cpp:308-316 | an item counts as updated exactly if some recorded report of it differs from the value cached before the notify, so never without a recorded report, and even if the last report takes the value back |
| `OsObserver.ToldExactly` | gps/core/SystemStatusOsObserver.cpp:296-341 | with transposed sides a client is told of an item exactly if it subscribes to it and some recorded report of it differs from the value cached before |
| `OsObserver.MessageIsExact` | gps/core/SystemStatusOsObserver.cpp:513-539 | the answer to a request is one message with exactly the cached ones of the items and their cached values, or none if there are none |
| `OsObserver.RefreshHoldsLast` | gps/core/SystemStatusOsObserver.cpp:541-567 | the cache ends up with the last recorded report of each item |
| `OsObserver.CacheHoldsLast` | gps/core/SystemStatusOsObserver.cpp:296-567 | in every run the cache holds exactly the items ever recorded, each with the value last recorded for it |
| `OsObserver.RefreshLeavesOthers` | gps/core/SystemStatusOsObserver.cpp:541-567 | an item that does not count as updated keeps its cached value |
| `OsObserver.UpdateToSameItemsSilences` | gps/core/SystemStatusOsObserver.cpp:166-176 | a client that subscribes to an item and then updates its subscription to the same item is sent nothing more |
| `OsObserver.ClientsHoldWhatTheyAsked` | gps/core/SystemStatusOsObserver.cpp:92-291 | in every run the client side holds exactly what each client has asked for and not given back |
| `OsObserver.AnnouncedIsWhatIsAsked` | gps/core/SystemStatusOsObserver.cpp:62-291 | in every run whose updates come from clients without subscriptions the framework, as soon as there is a subscription object, has been told of exactly the items some client asks for |
| `OsObserver.SystemStatusOsObserver.SetSubscriptionObj` | gps/core/SystemStatusOsObserver.cpp:62-90 | announces every item that has a client |
| `OsObserver.SystemStatusOsObserver.SubscribeOrRequest` | gps/core/SystemStatusOsObserver.cpp:92-138 | changes both maps and the framework as the subscribe request of the protocol and sends the cached items asked for; an empty list or no client is ignored |
| `OsObserver.SystemStatusOsObserver.UpdateSubscription` | gps/core/SystemStatusOsObserver.cpp:140-210 | changes both maps and the framework as the update of the protocol and sends the cached new items |
| `OsObserver.SystemStatusOsObserver.Unsubscribe` | gps/core/SystemStatusOsObserver.cpp:212-251 | changes both maps and the framework as the unsubscribe request of the protocol |
| `OsObserver.SystemStatusOsObserver.UnsubscribeAll` | gps/core/SystemStatusOsObserver.cpp:253-291 | removes the client from both maps and withdraws the items it leaves without a client |
| `OsObserver.SystemStatusOsObserver.SendCachedDataItems` | gps/core/SystemStatusOsObserver.cpp:513-539 | one message with the cached ones of the items, or none |
| `OsObserver.SystemStatusOsObserver.UpdateCache` | gps/core/SystemStatusOsObserver.cpp:541-567 | refreshes the cache with one report; true exactly if the item counts as updated |
| `OsObserver.SystemStatusOsObserver.HandleNotify` | gps/core/SystemStatusOsObserver.cpp:308-341 | refreshes the cache with all reports and sends the messages of the fan-out, each once |
| `OsObserver.SystemStatusOsObserver.SendUpdates` | gps/core/SystemStatusOsObserver.cpp:327-340 | the loop over the clients sends each of them its own updated items, once |
| `OsObserver.SystemStatusOsObserver.Notify` | gps/core/SystemStatusOsObserver.cpp:296-375 | the null entries the vector starts with change nothing: the fan-out is that of the list |
| `TripProtocol.StepKeepsInv` | gps/batching/BatchingAdapter.cpp:647-1027 | every event keeps each trip's account: what it has to its credit and what newcomers' restarts have taken from it add up to the distance travelled since it joined |
| `TripProtocol.RunsKeepInv` | gps/batching/BatchingAdapter.cpp:647-1027 | this holds after every run of joins, stops, travel and reports |
| `TripProtocol.RecordedNeverAhead` | gps/batching/BatchingAdapter.cpp:661-698 | in every run what is recorded for a trip never exceeds the distance travelled since it joined |
| `TripProtocol.ReportCompletesExactly` | gps/batching/BatchingAdapter.cpp:661-687 | a report completes exactly the trips whose distance has been travelled, over and above what was lost |
| `TripProtocol.RunsLoseNothingExactly` | gps/batching/BatchingAdapter.cpp:786-846 | in every run no trip has lost anything all along exactly if every restart forced by a newcomer, that is by a shorter interval than in force or a shorter distance than is left, finds all trips freshly reported |
| `TripProtocol.NothingLostWithoutForcing` | gps/batching/BatchingAdapter.cpp:786-846 | so nothing is lost as long as no newcomer forces a restart |
| `TripProtocol.NewcomerCosts` | gps/batching/BatchingAdapter.cpp:838-843 | after a restart forced by a newcomer every trip stands at what was last reported for it: it falls back by exactly what it has covered since, and that is what its account says it has lost |
| `TripProtocol.ScanFindsLeast` | gps/batching/BatchingAdapter.cpp:946-962 | the scan with zero for "none yet" finds the least remaining distance, if no trip is at its end |
| `TripProtocol.PastTargetDecidesLeast` | gps/batching/BatchingAdapter.cpp:964-1001 | at or past the target the decision arms the engine with the scan's result, however the 32-bit difference wraps |
| `TripProtocol.ReportRearmsForNearest` | gps/batching/BatchingAdapter.cpp:667-696 | when some but not all trips complete, the engine is re-armed for exactly the nearest end of the surviving trips |
| `TripProtocol.ReportKeepsOnTime` | gps/batching/BatchingAdapter.cpp:647-700 | a report leaves the engine due no later than any trip needs |
| `TripProtocol.StartStaysOnTimeExactly` | gps/batching/BatchingAdapter.cpp:749-846 | so does a newcomer exactly if it finds the engine not past its target, or asks for no more than any trip had left at its last report |
| `TripProtocol.LateNewcomerDelays` | gps/batching/BatchingAdapter.cpp:749-846 | a three-event run in which it is not: the engine is armed for the newcomer while an overdue trip, back at its start, needs less |
| `TripProtocol.StepStaysOnTimeExactly` | gps/batching/BatchingAdapter.cpp:647-1028 | every event keeps the engine in time exactly unless it is such a start or a stop whose re-arming does not |
| `TripProtocol.RunsStayOnTimeExactly` | gps/batching/BatchingAdapter.cpp:647-1028 | in every run the engine is never due late exactly if every start and stop in it is in time |
| `TripProtocol.ScanInReachExactly` | gps/batching/BatchingAdapter.cpp:946-962 | the scan's result, however its 32-bit differences wrap, is within reach of every trip exactly if some trip nearest its end has covered nothing since it was last measured |
| `TripProtocol.DistanceGuard` | gps/batching/BatchingAdapter.cpp:964-979 | for an engine in time the source's guard holds exactly if the trip it was armed for is gone or its target just reached, and the last trip is not at its end, or the engine is past its target and the scan's result below the wrapped difference; short of its target it never re-arms for a distance |
| `TripProtocol.RearmStaysOnTimeExactly` | gps/batching/BatchingAdapter.cpp:923-1028 | a re-arming keeps the engine in time exactly if it is for a distance and a trip nearest its end is freshly measured, or for the interval alone and the whole old target is within reach of every trip, or if it does nothing; all in terms of the state before |
| `TripProtocol.StopStaysOnTimeExactly` | gps/batching/BatchingAdapter.cpp:859-920 | a stop keeps the engine in time exactly if it is that of the only trip or the re-arming among the others does |
| `TripProtocol.StopForgetsUnreported` | gps/batching/BatchingAdapter.cpp:886-960 | after one of two trips is stopped between reports the engine is armed for the whole of the other, which is late by what that has covered |
| `TripProtocol.IntervalChangeStartsOver` | gps/batching/BatchingAdapter.cpp:980-1001 | a restart for the interval alone counts the old target from the start again |
| `TripProtocol.ReportNamesExactly` | gps/batching/BatchingAdapter.cpp:664-695 | in every run a report names exactly the trips whose distance has been travelled, over and above what was lost, in key order, each once |
| `TripProtocol.RunsStayAscending` | gps/batching/BatchingAdapter.cpp:661-857 | in every run the trips are in key order, each once |
| `TripProtocol.OdometerIsTravelled` | gps/batching/BatchingAdapter.cpp:647-1028 | in every run the odometer shows what has been travelled, whatever is armed, stopped or reported meanwhile |
| `TripProtocol.DroppedExactly` | gps/batching/BatchingAdapter.cpp:664-902 | the distance and the interval in force are marked dropped exactly by a stop or a completion of a trip that has them |
| `TripProtocol.RunsStayBare` | gps/batching/BatchingAdapter.cpp:885-944 | in every run no distance and no interval are in force while no trip is live |
| `TripProtocol.StartArms` | gps/batching/BatchingAdapter.cpp:749-857 | a first trip arms the engine for itself; a further one joins at the counter mark, and re-arms it for the lesser of its own distance and what is left, and of its own interval and the one in force, exactly if one of these is its own |
| `TripProtocol.IntervalScanIsLeastExactly` | gps/batching/BatchingAdapter.cpp:958-961 | the scan for the least interval, with zero for "none yet", finds it exactly if no trip has a zero interval or the last one has |
| `TripProtocol.RearmServesIntervalsExactly` | gps/batching/BatchingAdapter.cpp:996-1001 | a re-arming keeps the engine reporting as often as every trip asks for exactly unless the trip that had the interval is gone, another asks for a zero interval and the last one of all does not |
| `TripProtocol.StepServesIntervalsExactly` | gps/batching/BatchingAdapter.cpp:647-1028 | every event does exactly unless it is a stop or a report that leaves other trips behind and passes a zero interval over so |
| `TripProtocol.RunsServeIntervalsExactly` | gps/batching/BatchingAdapter.cpp:647-1028 | in every run, zero intervals included, the interval in force undercuts no trip's all along exactly if no event is such a one |
| `TripProtocol.ZeroIntervalForgotten` | gps/batching/BatchingAdapter.cpp:958-961 | a run of three starts and a stop after which the engine has a positive interval although a live trip asks for zero |
| `TripProtocol.ZeroIntervalForgottenAtReport` | gps/batching/BatchingAdapter.cpp:958-961 | a run of five events in which a report does the same |
| `TripProtocol.RunsStayAsked` | gps/batching/BatchingAdapter.cpp:647-1028 | in every run, while trips are live, the engine reports at an interval that some live trip asks for |
| `TripProtocol.RunsStayPaced` | gps/batching/BatchingAdapter.cpp:647-1028 | so in every run of trips with positive intervals the engine reports at exactly the least interval a live trip asks for |
| `TripBatching.BatchingAdapter.SmallestRemaining` | gps/batching/BatchingAdapter.cpp:946-962 | the scan of the trips for the least remaining distance and interval |
| `TripBatching.BatchingAdapter.CarryOver` | gps/batching/BatchingAdapter.cpp:1010-1020 | after a restart the distance up to now is kept in every trip |
| `TripBatching.BatchingAdapter.RestartTripBatching` | gps/batching/BatchingAdapter.cpp:923-1028 | changes trips, counters and engine as the re-arming of the protocol |
| `TripBatching.BatchingAdapter.ForgetUnreported` | gps/batching/BatchingAdapter.cpp:838-843 | after a newcomer's restart every trip starts from its last report |
| `TripBatching.BatchingAdapter.StartTripBatchingMultiplex` | gps/batching/BatchingAdapter.cpp:749-857 | changes trips, counters and engine as the start event of the protocol |
| `TripBatching.BatchingAdapter.StopTripBatchingMultiplex` | gps/batching/BatchingAdapter.cpp:859-920 | changes trips, counters and engine as the stop event of the protocol |
| `TripBatching.BatchingAdapter.MeasureAndErase` | gps/batching/BatchingAdapter.cpp:661-691 | the loop that erases as it goes measures every trip once, keeps exactly the unfinished ones and answers the ids of the others in order |
| `TripBatching.BatchingAdapter.ReportCompletedTrips` | gps/batching/BatchingAdapter.cpp:647-700 | changes trips, counters and engine as the report event of the protocol and answers the completed ids |
| `TrackingProtocol.StepKeepsInv` | gps/gnss/GnssAdapter.cpp:2376-2788 | every command but one keeps the engine running exactly while a time-based session is live, at least as often as asked, and tracking exactly the live distance-based sessions with their last options |
| `TrackingProtocol.RunsKeepInv` | gps/gnss/GnssAdapter.cpp:2376-2788 | this holds after every run without that command, so always when distance tracking is supported |
| `TrackingProtocol.UnservedUpdateServesExactly` | gps/gnss/GnssAdapter.cpp:2607-2621 | the one command, a minimum distance on an engine without distance tracking, keeps time-based sessions served exactly if another session is live and the new interval is no shorter than the engine's or, if the stop restarts it, the others' smallest |
| `TrackingProtocol.LoneSessionLosesEngine` | gps/gnss/GnssAdapter.cpp:2607-2621 | a lone session so updated stays live while the engine stops |
| `TrackingProtocol.AmendStaysSharpExactly` | gps/gnss/GnssAdapter.cpp:2713-2734 | an update leaves the engine no faster than needed exactly unless another session is live, the session alone has the engine's interval, and the new options have an interval no shorter and a power mode no smaller than the others' |
| `TrackingProtocol.StepStaysSharpExactly` | gps/gnss/GnssAdapter.cpp:2376-2788 | every command leaves the engine at the smallest live interval exactly unless it is such an update |
| `TrackingProtocol.RunsStayFitExactly` | gps/gnss/GnssAdapter.cpp:2376-2788 | in every run the engine is running exactly while a time-based session is live, at the smallest live interval, all along exactly if no event is such an update or the starving one on an engine without distance tracking |
| `TrackingProtocol.JoinKeepsPowerExactly` | gps/gnss/GnssAdapter.cpp:2483-2500 | a start leaves every session with the power mode it states exactly if it is the first or none of three things happens: its mode is not sent, it takes the mode over without stating a strong enough one, or it takes over with the options of the session with the shortest interval a mode that does not do; sessions may state no mode |
| `TrackingProtocol.AmendKeepsPowerExactly` | gps/gnss/GnssAdapter.cpp:2713-2734 | an update does so under the same condition on the others, or if it changes neither interval nor mode or has no others |
| `TrackingProtocol.LeaveKeepsPowerExactly` | gps/gnss/GnssAdapter.cpp:2827-2836 | a stop does so exactly unless it restarts the engine with a mode the scan ended at that is not enough for some other session |
| `TrackingProtocol.StatedModesLostExactly` | gps/gnss/GnssAdapter.cpp:2470-2500 | if all sessions state a mode, a stop never loses one, and new options lose one exactly if they restart for the interval alone while the session with the shortest interval so far has a weaker mode than another |
| `TrackingProtocol.EngineUpIsExact` | gps/gnss/GnssAdapter.cpp:2153-2176 | after an engine reset the engine is as fast as needed and no faster, and every session has the mode it states exactly if the first session states one or none does |
| `TrackingProtocol.StepKeepsPowerExactly` | gps/gnss/GnssAdapter.cpp:2376-2788 | every event leaves every session with the mode it states exactly unless it is one of these |
| `TrackingProtocol.RunsStayPoweredExactly` | gps/gnss/GnssAdapter.cpp:2376-2788 | in every run, unserved updates included, all sessions have the mode they state all along exactly if no event is one of these |
| `TrackingProtocol.UnstatedModeHides` | gps/gnss/GnssAdapter.cpp:2476-2500 | a run of two starts: after a session without a mode, one that states one at no shorter interval is not sent to the engine |
| `TrackingProtocol.UnstatedModeTakesOver` | gps/gnss/GnssAdapter.cpp:2483-2500 | a run of two starts: a session without a mode takes the mode of the first back, whatever its interval |
| `TrackingProtocol.ThirdSessionWeakens` | gps/gnss/GnssAdapter.cpp:2483-2500 | a run of three starts, all stating a mode, after which the engine is in the weaker mode of the second |
| `TrackingProtocol.StopLosesMode` | gps/gnss/GnssAdapter.cpp:2827-2836 | a run of three starts, after which all sessions have the mode they state, and a stop, after which one of them has not |
| `TrackingProtocol.ResetLosesMode` | gps/gnss/GnssAdapter.cpp:2153-2176 | a run of three starts, after which all sessions have the mode they state, and an engine reset, after which two of them have not |
| `TrackingProtocol.StatedRunsStayPoweredExactly` | gps/gnss/GnssAdapter.cpp:2376-2788 | in every run in which all sessions state a mode, each has it all along exactly if no event restarts the engine for the interval alone with a weaker mode than another session's, or keeps a session time-based that asks for a stronger mode than it leaves |
| `TrackingProtocol.EveryCommandAnsweredOnce` | gps/gnss/GnssAdapter.cpp:2376-2788 | in every run the answers are, in order, the one due to each command that is not refused |
| `TrackingProtocol.AnswersMatchCommands` | gps/gnss/GnssAdapter.cpp:2376-2788 | in every run each session has been sent exactly as many answers as commands were given for it, refused starts aside |
| `TrackingProtocol.SessionsHoldWhatTheyAsked` | gps/gnss/GnssAdapter.cpp:2285-2788 | in every run the live sessions, and no others, are on the two lists, by minimum distance and support, each with the options last asked for, with intervals raised to 100 ms and mode 4 lowered to 2 beyond 480 s |
| `TrackingProtocol.JoinSends` | gps/gnss/GnssAdapter.cpp:2455-2505 | the first session reaches the engine as it is; a further one that restarts it sends the options of a live session with the least interval, but for the shorter interval or smaller mode it asks for |
| `TrackingProtocol.AmendSends` | gps/gnss/GnssAdapter.cpp:2676-2738 | new options of the only session reach the engine as they are, of one among others as above, and nothing is sent if they change neither interval nor mode |
| `TrackingProtocol.LeaveSends` | gps/gnss/GnssAdapter.cpp:2793-2842 | a stop that restarts the engine sends the options of another session with the least interval of those, with the mode the scan ended at; the stop of the only session stops the engine |
| `TrackingProtocol.EngineUpSends` | gps/gnss/GnssAdapter.cpp:2145-2184 | after an engine reset the options are those of a session with the least interval, but for the mode and the time between measurements, which are those of the first session with that mode |
| `Tracking.GnssAdapter.ScanSessions` | gps/gnss/GnssAdapter.cpp:2470-2482 | the scan for the smallest interval and power mode over all sessions but one |
| `Tracking.GnssAdapter.StartTimeBasedTrackingMultiplex` | gps/gnss/GnssAdapter.cpp:2455-2505 | commands the engine as the join of the protocol; the client is answered by the engine exactly if it was commanded |
| `Tracking.GnssAdapter.UpdateTrackingMultiplex` | gps/gnss/GnssAdapter.cpp:2676-2738 | commands the engine as the update of the protocol; the same answering |
| `Tracking.GnssAdapter.StopTimeBasedTrackingMultiplex` | gps/gnss/GnssAdapter.cpp:2793-2842 | commands the engine as the stop of the protocol; the same answering |
| `Tracking.GnssAdapter.StartTrackingCommand` | gps/gnss/GnssAdapter.cpp:2401-2447 | changes sessions and engine as the start event of the protocol; answered once, or not at all if refused |
| `Tracking.GnssAdapter.UpdateTrackingOptionsCommand` | gps/gnss/GnssAdapter.cpp:2580-2670 | changes sessions and engine as the update event of the protocol; answered exactly once |
| `Tracking.GnssAdapter.StopTrackingCommand` | gps/gnss/GnssAdapter.cpp:2759-2787 | changes sessions and engine as the stop event of the protocol; answered exactly once |
| `Tracking.GnssAdapter.RestartSessions` | gps/gnss/GnssAdapter.cpp:2145-2184 | brings an engine that has lost everything to the state of the protocol after a reset |
| `GeofenceProtocol.StepKeepsInv` | gps/geofence/GeofenceAdapter.cpp:50-176 | every request, restart and late answer keeps each client key pointing to a stored geofence with that key, one geofence per key, and pending removals of stopped clients away from other clients' geofences |
| `GeofenceProtocol.RunsKeepInv` | gps/geofence/GeofenceAdapter.cpp:50-176 | this holds after every interleaving |
| `GeofenceProtocol.KeyMapIsInjective` | gps/geofence/GeofenceAdapter.cpp:644-686 | in every run no two client keys point to one hardware id |
| `GeofenceProtocol.MapsAreInverse` | gps/geofence/GeofenceAdapter.cpp:644-686 | in every run in which no client goes away the two maps are inverse to each other |
| `GeofenceProtocol.RemovalIsExact` | gps/geofence/GeofenceAdapter.cpp:663-686 | an answered removal takes one geofence out of both maps and touches nothing else, and is dropped if the client has gone away meanwhile |
| `GeofenceProtocol.ReaddAcceptedIsExact` | gps/geofence/GeofenceAdapter.cpp:141-176 | however late, and after whatever else, the engine takes one geofence back after a restart, it is stored as not paused under the new hardware id, its key, unknown until then, points there, nothing else moves, and a pause is sent again exactly if it was paused |
| `GeofenceProtocol.RunsSettle` | gps/geofence/GeofenceAdapter.cpp:141-176 | from empty maps, in whatever order the open calls are answered or not, and whatever is asked meanwhile, exactly what was accepted is stored, under the ids it was accepted with |
| `GeofenceProtocol.RestartRestores` | gps/geofence/GeofenceAdapter.cpp:141-176 | when the engine has taken back all geofences after a restart, in any order and with requests in between, each is stored under its new hardware id, not paused, its key points there, and anything else stored was asked for before the restart and not answered by then |
| `GeofenceProtocol.RestartRepauses` | gps/geofence/GeofenceAdapter.cpp:165-173 | by then the engine has been told to pause again, once, exactly those that were paused, under their new hardware ids, in whatever order they came back |
| `GeofenceProtocol.SecondRestartResumes` | gps/geofence/GeofenceAdapter.cpp:165-173 | after a second restart a geofence that the engine takes back is never paused again, in whatever order the answers to both restarts come |
| `GeofenceProtocol.RestartKeepsKeysExactly` | gps/geofence/GeofenceAdapter.cpp:141-176 | the restart leaves the keys as they were, but for those asked for and not answered before, exactly if no stopped client's geofence was still stored |
| `GeofenceProtocol.RestartKeepsPausedExactly` | gps/geofence/GeofenceAdapter.cpp:165-173 | the restart leaves the geofences paused or not as they were exactly if none was paused |
| `GeofenceProtocol.PausedGeofenceResumes` | gps/geofence/GeofenceAdapter.cpp:165-173 | a run of eight events: a geofence is added and paused, the engine restarts twice, and at the end it is stored as it was added and the engine has not been told to pause it |
| `GeofenceProtocol.StoppedClientReturns` | gps/geofence/GeofenceAdapter.cpp:50-78 | a restart before the engine confirms a removal brings a stopped client's geofence back |
| `GeofenceProtocol.BreachedMembers` | gps/geofence/GeofenceAdapter.cpp:786-805 | a client is told an id exactly if a breached hardware id is stored for that client under it |
| `GeofenceProtocol.BreachedInOrder` | gps/geofence/GeofenceAdapter.cpp:786-805 | they are those of the client's hardware ids in the report, in its order, each as often as it is reported |
| `GeofenceProtocol.BreachReachesOwner` | gps/geofence/GeofenceAdapter.cpp:786-805 | in every run in which no client goes away a breach reaches exactly the keys that point to the breached hardware ids |
| `Geofence.NoticesAreExact` | gps/geofence/GeofenceAdapter.cpp:786-818 | a client gets a notice exactly if it has a callback and one of its geofences was breached, then of all those, and once for each time it is registered |
| `GeofenceProtocol.RunFollows` | gps/geofence/GeofenceAdapter.cpp:50-176 | whatever happens later, calls sent stand as they were, and a hardware id keeps its key for life and does not come back once it is gone |
| `GeofenceProtocol.RequestsSend` | gps/geofence/GeofenceAdapter.cpp:235-640 | a request about a known key sends exactly one call of its kind, for its hardware id, one about an unknown key none, and an addition sends the geofence as it is, not paused; none of them changes the maps |
| `GeofenceProtocol.RefusalChangesNothing` | gps/geofence/GeofenceAdapter.cpp:249-434 | a refused call, and the pause sent again, change nothing |
| `GeofenceProtocol.AcceptedAddIsExact` | gps/geofence/GeofenceAdapter.cpp:249-260 | however late the engine accepts a new geofence, it is stored as given under the engine's id, its key, unknown until then, points there, and nothing else moves |
| `GeofenceProtocol.AcceptedChangeIsExact` | gps/geofence/GeofenceAdapter.cpp:424-434 | however late a pause, resume or modification is accepted, it reaches the geofence asked for if that is still stored, which then still has the same key, and no other |
| `GeofenceProtocol.AcceptedRemovalIsExact` | gps/geofence/GeofenceAdapter.cpp:349-360 | however late a removal is accepted, it takes that geofence, and no other, out of both maps, or nothing if it is gone or its client is |
| `GeofenceProtocol.AcceptedForgetIsExact` | gps/geofence/GeofenceAdapter.cpp:50-78 | however late a removal sent for a stopped client is accepted, it takes that geofence out of the store and touches nothing else; there is one for each of the client's keys |
| `GeofenceProtocol.StopForgetsKeys` | gps/geofence/GeofenceAdapter.cpp:50-78 | the stop of a client forgets exactly its keys, stores nothing, and sends only those removals |
| `Geofence.GeofenceAdapter.RemoveGeofenceItem` | gps/geofence/GeofenceAdapter.cpp:663-686 | changes both maps as the answered removal of the protocol |
| `Geofence.GeofenceAdapter.StopClientSessions` | gps/geofence/GeofenceAdapter.cpp:50-78 | the erasing loop takes out exactly the client's keys and sends one removal for each |
| `Geofence.GeofenceAdapter.RestartGeofences` | gps/geofence/GeofenceAdapter.cpp:141-176 | clears both maps and sends each stored geofence once |
| `Geofence.GeofenceAdapter.Respond` | gps/geofence/GeofenceAdapter.cpp:64-176 | the callback of a call changes the maps as the late answer of the protocol, and sends the pause again for a re-added geofence that was paused |
| `Geofence.GeofenceAdapter.BreachedIds` | gps/geofence/GeofenceAdapter.cpp:793-805 | the ids of the client's breached geofences, in the order of the report |
| `Geofence.GeofenceAdapter.GeofenceBreach` | gps/geofence/GeofenceAdapter.cpp:786-818 | the notices of all clients |
| `SvIdConfig.MarkSource` | gps/gnss/GnssAdapter.cpp:1457-1498 | one entry changes only the mask of its constellation; an unknown constellation or satellite changes nothing |
| `SvIdConfig.ConvertToGnssSvIdConfig` | gps/gnss/GnssAdapter.cpp:1441-1505 | an empty list clears the masks, any other adds to them; true exactly if the list is empty or some mask is not zero |
| `SvIdConfig.ConvertGnssSvIdMaskToList` | gps/gnss/GnssAdapter.cpp:1537-1563 | appends the satellites of the mask in ascending order, or the one entry for all |
| `SvIdConfig.ConvertFromGnssSvIdConfig` | gps/gnss/GnssAdapter.cpp:1507-1535 | appends the satellites of all masks; the list counts as given exactly if it did or some mask is not zero |
| `SvIdConfig.MarkedByIsExact` | gps/gnss/GnssAdapter.cpp:1457-1498 | encoding adds to a mask exactly the bits its constellation's entries stand for |
| `SvIdConfig.EncodedIsExact` | gps/gnss/GnssAdapter.cpp:1441-1505 | the empty list clears every mask; any other leaves exactly the bits that were set and those its entries stand for |
| `SvIdConfig.FirstSatellites` | gps/gnss/GnssAdapter.cpp:1457-1498 | satellites 65, 193, 201 and 301 of GLONASS, QZSS, BeiDou and Galileo are bit 0 of their masks |
| `SvIdConfig.BitOfShiftedOne` | gps/gnss/GnssAdapter.cpp:1494 | an entry stands for its own bit up to 30; 31 stands for all bits from there on |
| `SvIdConfig.ShiftIsRightExactly` | gps/gnss/GnssAdapter.cpp:1494 | an entry stands for its own bit alone, on every machine, exactly up to bit 30 |
| `SvIdConfig.ListedIsExact` | gps/gnss/GnssAdapter.cpp:1554-1562 | the list names exactly the set bits |
| `SvIdConfig.DecodedIsExact` | gps/gnss/GnssAdapter.cpp:1507-1535 | decoding four masks lists exactly their satellites, each under its constellation |
| `SvIdConfig.AgainIsExact` | gps/gnss/GnssAdapter.cpp:1441-1563 | what decoding and encoding make of a mask, bit by bit |
| `SvIdConfig.RoundTrip` | gps/gnss/GnssAdapter.cpp:1441-1563 | decoding and encoding give back four masks that are all ones or have bits only in positions 0 to 30 |
| `SvIdConfig.RoundTripExactly` | gps/gnss/GnssAdapter.cpp:1441-1563 | on every machine exactly those survive |
| `SvIdConfig.OtherIsChanged` | gps/gnss/GnssAdapter.cpp:1494 | on a machine that answers undefined shifts with minus one any other mask is changed |
| `AdapterArray.RunsStayExact` | gps/core/LocApiBase.cpp:230-275 | after every sequence of additions and removals the list holds exactly the registered adapters, each once, up to capacity |
| `AdapterArray.RemovedIsExact` | gps/core/LocApiBase.cpp:241-275 | moving the last adapter into the hole takes out one adapter and keeps all others, each once |
| `AdapterArray.OpenExactly` | gps/core/LocApiBase.cpp:230-239 | an addition sends one open message for the newcomer exactly if it is new and there is room, and nothing otherwise |
| `AdapterArray.CloseExactly` | gps/core/LocApiBase.cpp:266-272 | the close message is sent exactly by the removal that leaves no adapter; any other removal of a registered one renews the event mask, and others send nothing |
| `AdapterArray.LinkFollowsAdapters` | gps/core/LocApiBase.cpp:230-275 | in every sequence of additions and removals the last message leaves the link open exactly while an adapter is registered |
| `AdapterArray.UntilHandledIsExact` | gps/core/LocApiBase.h:59-60 | delivery until handled calls a prefix of the list, in which only the last adapter may handle the event, and stops early only if it does |
| `AdapterArray.LocApiBase.AddAdapter` | gps/core/LocApiBase.cpp:230-239 | appends a new adapter and sends one open message if there is room; a listed adapter, a full array and a null pointer change nothing |
| `AdapterArray.LocApiBase.MoveLast` | gps/core/LocApiBase.cpp:247-272 | the inner loop finds the last adapter and puts it into the hole, in place |
| `AdapterArray.LocApiBase.RemoveAdapter` | gps/core/LocApiBase.cpp:241-275 | the adapter leaves, the array stays compact, and one message is sent |
| `AdapterArray.LocApiBase.DeliverToAll` | gps/core/LocApiBase.h:54-57 | each listed adapter is called once, in order |
| `AdapterArray.LocApiBase.DeliverToFirstHandling` | gps/core/LocApiBase.h:59-60 | the adapters are called in order until one handles the event |

## Left out

- Partition mapping, argument reading and printing around the search and the comparison: input and output.
- Search: does not cover the empty pattern, for which the source reads outside its tables before it tests the length.
- Message queues, threads, timers, mutexes, loading of libraries and the client-facing wrappers.
- RequestOrReleaseDataConn: does not log the AGPS type and the APN mask sent along, which are those of the last request to the machine and decide nothing.
- Report: requires the machine, because the source follows a pointer that is null without one.
- APN names, bearers and type masks of the AGPS machine, which are copied but decide nothing.
- Registration masks, batching timeouts and routine batching sessions beside trips.
- StartTripBatchingMultiplex: requires distances below 2^31, so that remaining distances of covered trips do not wrap; the 32-bit differences themselves are modelled.
- BatchingAdapter: does not model failed engine calls or an engine reset, whose restart resets counters on copies of the map entries.
- StopTripBatchingMultiplex: does not model the restart of the session in another batching mode, which is a stop followed by a start.
- `GnssAdapter::stopClientSessions`: it stops time-based sessions at the engine but leaves them listed, so the laws of tracking exclude client removal.
- Messages that wait until the engine's capabilities are known: they arrive later as ordinary events.
- Tracking.GnssAdapter: does not model failed engine calls, the engine hub or the power-state report.
- The answer to a refused start of tracking: the source computes an error and sends nothing.
- Collective answers of geofence batches, and batches with missing parameters: the model has the single requests.
- Geofence dwell and status events, which only copy.
- The flag word of the GNSS configuration but for the blacklist bit; `size` fields.
- LocHeap, a priority queue of timers: not modelled.
- `SystemStatusNetworkInfo`, NMEA parsing, time arithmetic, equality and dump methods: field-by-field work that would only add easy members.
- `turnOn`, `turnOff` and the backhaul calls of the observer, which pass requests through with reference counts.
