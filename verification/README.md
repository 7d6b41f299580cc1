# Verified model of V2bX's own stateful parts

V2bX connects proxy cores (xray, sing-box, hysteria) to a user panel. This project models the parts of it
that keep state of their own, in Dafny, and proves what they keep over every input, every run or every
interleaving:

- **Json5, Json5Documents**: the stripper that turns commented JSON into JSON by overwriting a byte buffer in
  place. Two functions on the buffer and the scan index specify the methods; documents made of literals, plain
  bytes, commas and comments are the independent reference.
- **Limiter, LimiterCalls, LimiterRuns**: the per-user limiter with its two generations of online IPs, its shared
  token buckets and its registry; what its calls come to in terms of its maps; and runs of connections, user
  updates, fetched alive lists and reports.
- **UserDiff, Controller, ControllerRuns**: the comparison of user lists and the tick that applies it to a core
  and a limiter, with every early return, and the tasks it starts, restarts and closes; runs of ticks with
  failing calls and use of the limiter in between.
- **Traffic, TrafficRace, TrafficDrains, OnlineReport**: counters, logger, drain and report, first as calls that
  follow one another, with changing users and reports that may fail, then as a state machine whose steps are the
  single atomic operations, with one drain and with any number of them; and the grouping of the online users
  that are reported. All accounts are sums over the steps of a run.
- **PeriodicTask**: the start/stop protocol of the periodic tasks and all its interleavings.
- **Dispatcher**: the reader that caches what it looks at, the shrinking list of sniffers and the retry loop.
- **Links**: link managers and the deletion of xray users that closes them.
- **Mimic**: the filters of a Mimic peer and the decision whether a running Mimic covers them.

Objects whose methods update them are classes; their contracts equate the new contents with a function of the
old ones. The lemmas say what these functions come to with the values and characters of the source written out,
and what follows for runs. Iteration over a Go map is a loop that picks any remaining
entry, so what is proved holds for every order.

Several promises do not hold on every input the code accepts. Each is kept as the code has it; one lemma says
exactly when it holds, and another gives an input for which it does not:

- The comment stripper passes over the byte behind a star that does not end a block comment. A document is
  stripped as its comments promise exactly when every star inside a block comment is followed by a space of
  that comment (`StripDocument`); for `/***/` it is not (`StarredCommentIsNotStripped`). The comment on
  `TrimNodeReader.Read` speaks of line comments only; the code handles block comments too, and the model
  follows the code.
- A slash behind a comma that opens no comment hides the byte behind it, and a comma may go although a value
  follows it (`LoneSlashHides`, `HiddenDigit`); such a text is no document.
- Stripping twice is stripping once exactly when no comma stands right before a removed one (`StripTwice`); for
  `,,]` it is not (`TwoCommasNeedTwoStrips`).
- The last report is kept by IP alone, so a user at his device limit gets in from an IP that only another user
  was listed with (`OwnIpsWhen`, `AnothersIpIsTakenUp`); all users together get no new IP (`PeriodSafety`).
- The list comparison writes the speed limit behind the uuid to get a key; it is right exactly when no keys run
  into each other (`DiffIsRightWhen`, `KeysCanRunIntoEachOther`), which uuids of one length ensure
  (`FixedLengthIsUnambiguous`).
- It does not look at device limits (`DeviceLimitsGoStale`, `NewDeviceLimitIsIgnored`).
- A reload of a node with a configured name replaces the list but not the limiter (`NamedReload`,
  `NamedReloadLosesAgreement`); a reload never takes users out of the hysteria core (`ReloadCore`,
  `ReloadKeepsLostUser`) and leaves the limiter of the old tag registered until a reload comes back to this tag
  (`LimiterStays`, `ReloadLeavesOldLimiter`).
- A reload with a new pull interval restarts the monitor from within itself and leaves two loops of it
  (`ReloadDoublesMonitor`, `MonitorIsDoubled`). One with a new push interval gives the report task the pull
  interval (`ReportIntervalIsAPull`), and may leave two loops of it (`ReloadDoublesReport`).
- Two such loops drain at once. Then two entries hold the same bytes exactly when one drain loads after the other
  has loaded and before any store (`TwiceWhen`, `ByteIsListedTwice`).
- With one drain at a time, between drains everything counted is reported or pending exactly when nothing was added between a load and
  its store, no drain threw away what it held because nobody was known for it, and no key was deleted whose
  counters held bytes or received any later (`NothingIsMissingWhen`); each can happen (`BytesCanGetLost`,
  `BytesCanBeDiscarded`, `DeletedBytesAreDropped`), the last to every user the comparison lists as deleted,
  also when only his speed limit changed.
- Of what is logged, bytes get lost with failing reports, unknown users, shared uids and deleted counters, and in
  no other way (`NothingIsLostWhen`, `FailingReportLosesTraffic`); a report keeps one entry per uid
  (`ReportKeepsTotal`, `SharedUidLosesTraffic`).
- A failing Execute after a Close closes a closed channel (`RunPanics`, `FailingAfterClosePanics`); every Execute
  in `node/` returns nil, so the repository itself never gives this input. A Start while an earlier loop is busy
  leaves two loops running (`StartAfterClose`, `OldLoopJoins`, `RestartFromWithin`).
- `determineSpeedLimit` is described as the minimum non-zero rate; zero stands for "no limit" only next to
  limits that are not negative (`DetermineLaws`, `NegativeLimitsBreakTheLaws`).

## Model

| member | source | states |
|---|---|---|
| Json5.ConsumeComment | common/json5/json5.go:21-47 | in place and in bounds for every buffer, though the returned index may lie behind its end |
| Json5.Prep | common/json5/json5.go:57-93 | terminates and stays in bounds on arbitrary bytes, and leaves the stripped content in the buffer |
| Json5.StripBlanks | common/json5/json5.go:49-93 | whatever the bytes, the length stays and every byte is kept or becomes a space |
| Json5.PrepAtBlanks | common/json5/json5.go:57-91 | from any scan position on, the scan never touches a byte before that position |
| Json5.TrimNodeReader.Read | common/json5/json5.go:95-107 | successive reads deliver exactly the stripped content piece by piece, then end of file; a failing source fails the read and leaves the reader unprepared |
| Json5Documents.StripDocument | common/json5/json5.go:21-93 | strip theorem: literals, plain bytes and newlines kept, comments blank, a comma blank just when a closing bracket follows the whitespace and comments behind it; it holds if and only if every star inside a block comment is followed by a space of that comment |
| Json5Documents.PrepDocument | common/json5/json5.go:57-91 | the same equivalence for the rest of a buffer from any position at which a document starts |
| Json5Documents.GapDocument | common/json5/json5.go:73-87 | the loop behind a comma, started before any document, leads to the right result and decides the comma by the first significant byte |
| Json5Documents.LineComment | common/json5/json5.go:22-27 | a line comment becomes blank as a whole and the scan stops at its newline, which stays |
| Json5Documents.BlockComment | common/json5/json5.go:28-45 | a harmless block comment becomes blank as a whole and the scan stops on what was its last byte |
| Json5Documents.BlockCommentSlips | common/json5/json5.go:28-45 | a block comment with any other star keeps a byte that is no space, at a place the scan never comes back to |
| Json5Documents.StarredCommentIsNotStripped | common/json5/json5.go:31-44 | the concrete comment for which stripping fails |
| Json5Documents.StripTwice | common/json5/json5.go:57-91 | on documents with harmless comments stripping is idempotent if and only if no comma has only whitespace and comments between it and a comma that is removed |
| Json5Documents.TwoCommasNeedTwoStrips | common/json5/json5.go:72-90 | the concrete document that stripping twice changes twice |
| Json5Documents.ScannerKnows | common/json5/json5.go:13-91 | the scanner's newlines, whitespace, closing brackets and marks are the characters documents are made of |
| Json5Documents.LoneSlashStays | common/json5/json5.go:70-71 | a slash that opens no comment stays and the scan goes on behind it |
| Json5Documents.LoneSlashHides | common/json5/json5.go:73-87 | behind a comma it hides the next byte from the search for a bracket |
| Json5Documents.HiddenDigit | common/json5/json5.go:73-87 | a text whose comma goes although a digit follows it |
| Json5Documents.OpenLiteralStays | common/json5/json5.go:59-69 | a literal that is not closed hides the rest of the buffer |
| Json5Documents.OpenBlockBlanks | common/json5/json5.go:28-45 | a block comment that is not closed blanks the rest of the buffer |
| Limiter.Limiter.AdmitDevice | limiter/limiter.go:153-186 | rejects exactly a new IP that is not in the last report while the device limit is used up; a rejection undoes the intermediate inserts, an admission moves the IP from the last report to the online IPs |
| Limiter.Limiter.CheckLimit | limiter/limiter.go:126-200 | the whole verdict: unknown user, expiry of temporary limits, device admission, effective rate and shared bucket, with the whole new state |
| Limiter.Limiter.SharedBucket | limiter/limiter.go:188-199 | the first bucket of a user is stored and every later call gets it |
| Limiter.Limiter.UpdateUser | limiter/limiter.go:90-113 | all five maps after deleting one list of users and adding another |
| Limiter.Limiter.AddAll | limiter/limiter.go:98-112 | fresh entries, without temporary limit or flag, for a list of users |
| Limiter.Limiter.UpdateDynamicSpeedLimit | limiter/limiter.go:115-124 | sets a temporary limit on an existing entry, reports a missing one, changes nothing else |
| Limiter.Limiter.GetOnlineDevice | limiter/limiter.go:202-220 | for every range order: one entry per (user, IP) pair with its uid, no online IPs left, and the last report holding exactly the listed IPs with a uid listed for them |
| Limiter.Limiter.RangeIps | limiter/limiter.go:208-214 | one user: his IPs are appended to the report and remembered, in any order |
| Limiter.Limiter.constructor | limiter/limiter.go:44-67 | a limiter for a list of users |
| Limiter.Registry.AddLimiter | limiter/limiter.go:44-72 | registers a new limiter under the tag |
| Limiter.Registry.GetLimiter | limiter/limiter.go:74-82 | the limiter registered under the tag, or not found |
| Limiter.Registry.DeleteLimiter | limiter/limiter.go:84-88 | takes the tag out of the registry |
| LimiterCalls.RejectedWhen | limiter/limiter.go:126-186 | a connection is rejected if and only if its user is unknown, or devices are looked at, its IP is neither online nor in the last report, and the panel knows as many devices as he may have |
| LimiterCalls.MappedIsSame | limiter/limiter.go:127-128 | an IPv4 address and its form mapped into IPv6 make the same connection |
| LimiterCalls.OnlineAfter | limiter/limiter.go:153-186 | which IPs are online and which are left of the last report after a connection |
| LimiterCalls.InfoAfter | limiter/limiter.go:130-152 | a temporary limit that has run out goes, with the entry of a user without limit of his own; nothing else about users changes |
| LimiterCalls.GrantedWhen | limiter/limiter.go:188-199 | a connection gets a bucket if and only if it is admitted and some limit holds for its user; it is the one stored for him, and other users' buckets stay |
| LimiterCalls.AdmittedShareBucket | limiter/limiter.go:188-199 | over every run with limits that are not negative and fit: all admitted connections of a limited user between deletions get a bucket, and the same |
| LimiterCalls.DeletedAreGone | limiter/limiter.go:91-97 | nothing of a deleted user is left: entry, online IPs, bucket, uid and count of devices |
| LimiterCalls.OthersStay | limiter/limiter.go:91-97 | what belongs to no deleted user stays |
| LimiterCalls.AddedAreKnown | limiter/limiter.go:98-112 | an added user's entry has his uid and limits, and his uuid leads to his uid |
| LimiterCalls.OthersKnown | limiter/limiter.go:98-112 | nobody else becomes known |
| LimiterCalls.TemporaryLimit | limiter/limiter.go:115-124 | a temporary limit changes limit and expiry of an existing entry and nothing else |
| LimiterCalls.NewLimiter | limiter/limiter.go:44-67 | a new limiter has its node's limit and alive list, and nobody online |
| LimiterCalls.ReportHolds | limiter/limiter.go:202-220 | a report has an entry for each uid and IP somebody is online with, as many as there are users and IPs; what is remembered leads from these IPs to such uids |
| LimiterRuns.ConnectKnown | limiter/limiter.go:153-186 | a connection makes a new IP reportable if and only if it is new, the user is known, devices are looked at and there is room |
| LimiterRuns.RunKnown | limiter/limiter.go:153-220 | over any stretch of a run whose connections find no room, nothing becomes reportable that was not |
| LimiterRuns.ReportKnown | limiter/limiter.go:202-220 | the IPs of a report, and those remembered, are exactly the IPs that were online |
| LimiterRuns.PeriodSafety | limiter/limiter.go:153-186 | whole-run device safety: if all connections of a period find their users at the limit, every user's online IPs were in the report the period started with, whatever updates, temporary limits and alive lists come in between |
| LimiterRuns.OnlineIsTakenUp | limiter/limiter.go:153-186 | over a stretch without reports whose connections find no room, a user who is not deleted gets online exactly the IPs he takes up from the last report |
| LimiterRuns.OwnIpsWhen | limiter/limiter.go:159-176 | such a user has only IPs online that he had at the last report if and only if he takes none up that was only somebody else's |
| LimiterRuns.AnothersIpIsTakenUp | limiter/limiter.go:163-167 | a run in which a user at his limit gets in from another user's IP |
| LimiterRuns.ReportsShrink | limiter/limiter.go:202-220 | then the set of reported IPs does not grow from one report to any later one |
| LimiterRuns.UseLimiter | limiter/limiter.go:90-220 | any calls of a limiter, one after another, are a run |
| LimiterRuns.BucketIsShared | limiter/limiter.go:188-199 | over every run, between deletions of a user all connections that get a bucket get the same one |
| LimiterRuns.BucketOrigin | limiter/limiter.go:188-199 | every stored bucket has the rate of the node, user and unexpired temporary limits at the earlier connection of this user that made it |
| LimiterRuns.BucketRate | limiter/limiter.go:130-199 | over every run with limits that are not negative and fit, that rate is 125000 bytes a second for each megabit of the smallest non-zero of these three limits |
| LimiterRuns.RunBucketsDistinct | limiter/limiter.go:188-199 | over every run no two users share a bucket |
| LimiterRuns.DetermineIsMinimum | limiter/dynamic.go:19-38 | for non-negative limits the result is one of the two, within both, and none only if both are none |
| LimiterRuns.DetermineLaws | limiter/dynamic.go:19-38 | commutative and idempotent always, associative on non-negative limits, zero neutral exactly for non-negative ones |
| LimiterRuns.NegativeLimitsBreakTheLaws | limiter/dynamic.go:19-38 | a negative limit for which zero is not neutral and the order of three limits counts |
| LimiterRuns.RateIsExact | limiter/limiter.go:188-190 | 125000 bytes a second per megabit if and only if the product fits into 64 bits |
| Panel.UserTagInjective | common/format/user.go:7-9 | on one node different uuids have different names |
| Panel.Int64Wraps | core/hy2/hook.go:53-54 | a value kept in 64 bits differs from the number by a multiple of 2^64 and is the number if that fits |
| Panel.QuotientTruncates | limiter/limiter.go:188-188 | division cuts off towards zero |
| UserDiff.CompareUserList | node/user.go:62-83 | the exact outcome for arbitrary lists, with the deleted users in any order |
| UserDiff.DiffIsRightWhen | node/user.go:62-83 | for lists without repeated uuids: deleted are exactly the old users whose (uuid, speed limit) is gone and added, in order, exactly the new ones whose pair was not there, if and only if no keys run into each other |
| UserDiff.FixedLengthIsUnambiguous | node/user.go:64-70 | uuids of one length keep the keys apart |
| UserDiff.KeysCanRunIntoEachOther | node/user.go:65-74 | two users whose replacement goes unnoticed |
| UserDiff.DiffApplies | node/user.go:62-83 | taking the deleted pairs away and adding the added ones gives the new pairs, also for changed limits |
| UserDiff.ItoaInjective | node/user.go:65-65 | decimal texts tell integers apart |
| UserDiff.DecimalReads | node/user.go:65-65 | a decimal text stands for its number and has no leading zero |
| Controller.Controller.constructor | node/controller.go:33-40 | a controller without limiter, list or tag |
| Controller.Controller.Start | node/controller.go:43-98 | succeeds exactly when the panel answered with users and every call succeeded, and then limiter, registry, list and core are those of the answer and the tasks run; after a failing call the new limiter is in use and registered, and the core as the call left it |
| Controller.Controller.StartTasks | node/task.go:13-41 | monitor and report run with the node's intervals, the renewal of certificates exactly when the node gets them itself |
| Controller.Controller.NodeInfoMonitor | node/task.go:52-228 | one tick with every early return: what each outcome leaves of list, limiter, registry, core and tasks, ready for the next tick |
| Controller.Controller.SyncUsers | node/task.go:170-227 | the path of an unchanged node |
| Controller.Controller.Reload | node/task.go:80-151 | the reload path up to the intervals, including the calls whose failure panics |
| Controller.Controller.CheckIntervals | node/task.go:153-165 | each task whose interval differs from the one announced is closed and started again, both with the pull interval |
| Controller.Controller.Rebuild | node/task.go:98-110 | without a configured name a new tag and a new limiter, with one only the alive list |
| Controller.Controller.Close | node/controller.go:101-123 | the registry entry of the node's tag is gone and every task is closed, whether or not the node can be deleted |
| Controller.Core.AddUsers | core/hy2/user.go:29-42 | whatever the order of the goroutines, the listed users are in, with an id listed for them, and the others are as before |
| Controller.Core.DelUsers | core/hy2/user.go:52-61 | whatever the order, exactly the listed users are gone |
| ControllerRuns.TickAgrees | node/task.go:52-228 | a tick that does not panic keeps the agreement of limiter, registry and list, whichever core calls fail |
| ControllerRuns.DiffAgrees | node/task.go:170-227 | the same for every tick with an unchanged node |
| ControllerRuns.DiffUuids | node/task.go:178-211 | deleting and then adding the uuids of the comparison turns the old uuids into the new ones |
| ControllerRuns.RunAgrees | node/task.go:52-228 | from a start on, over every run of ticks and uses of the limiter: the limiter knows exactly the listed users, every remaining entry has that user's speed limit, the registry leads to the limiter |
| ControllerRuns.UniformRunAgrees | node/task.go:52-228 | the same whenever the lists the panel sends repeat no uuid and all uuids have one length |
| ControllerRuns.RunTicks | node/task.go:52-228 | the ticks of a controller are a run, and its tasks are those the completed reloads make of them |
| ControllerRuns.RunController | node/controller.go:43-98 | a new controller that starts and is ticked without a panic agrees with its limiter, whichever core calls fail |
| ControllerRuns.TickUsers | node/task.go:80-227 | which list a tick leaves, for every outcome |
| ControllerRuns.TickTag | node/task.go:99-100 | the tag of a reloaded node without a name, text by text; any other tag stays |
| ControllerRuns.StartMeans | node/controller.go:63-71 | tag, list, alive list and limit of a started node are those of the answer and the configuration |
| ControllerRuns.RunNodeLimit | node/task.go:104-104 | over every run the limiter has the configured limit of the node |
| ControllerRuns.TickAlive | node/task.go:104-173 | the count of a uid's devices after a tick: the announced one, if a list was announced, none if the tick deletes its user or makes a limiter without a list, else the old one |
| ControllerRuns.RunAlive | node/task.go:108-173 | over every run an announced count stays until a step recounts it |
| ControllerRuns.ConnectionIsJudged | limiter/limiter.go:153-186 | until then connections of the user are rejected by the announced count |
| ControllerRuns.RunCore | core/hy2/user.go:29-61 | over runs of ticks that succeed and drop no user by a reload, the hysteria core lets in exactly the listed users |
| ControllerRuns.ReloadCore | node/task.go:141-145 | a reload leaves the core in agreement if and only if no old user is missing in the new list |
| ControllerRuns.ReloadKeepsLostUser | node/task.go:141-145 | a reload after which the core lets in a user the list has lost |
| ControllerRuns.DiffCore | node/task.go:178-204 | a tick with an unchanged node and successful calls keeps the core in agreement |
| ControllerRuns.NamedReload | node/task.go:98-106 | for a node with a configured name a reload keeps agreement if and only if no user came or went and none who still has an entry got another speed limit |
| ControllerRuns.KeepsLimitsIsSamePairs | node/task.go:98-106 | while every user has an entry that means the same (uuid, speed limit) pairs |
| ControllerRuns.NamedReloadLosesAgreement | node/task.go:98-106 | such a reload after which list and limiter differ in a speed limit |
| ControllerRuns.LimiterStays | node/task.go:99-105 | over every run no tag leaves the registry, and the limiter under a tag stays the same if and only if no reload comes back to this tag |
| ControllerRuns.ReloadLeavesOldLimiter | node/task.go:100-105 | a reload after which the old limiter is registered under a tag that is no longer in use |
| ControllerRuns.DeviceLimitsGoStale | node/user.go:64-76 | after a tick the entries have the new device limits if and only if no user who kept his speed limit got a new one |
| ControllerRuns.NewDeviceLimitIsIgnored | node/user.go:64-76 | a successful tick after which the limiter has an old device limit |
| ControllerRuns.RestartedWhen | node/task.go:153-165 | a restart happens if and only if a new interval other than zero is announced; it closes the current channel and starts one loop on a new one with the given interval |
| ControllerRuns.MonitorFollows | node/task.go:154-159 | over all ticks the monitor has the pull interval announced last |
| ControllerRuns.ReloadDoublesMonitor | node/task.go:153-159 | a reload, which runs inside the monitor task, leaves a single loop of that task if and only if it does not change its interval |
| ControllerRuns.MonitorIsDoubled | node/task.go:153-159 | a running monitor that such a reload doubles |
| ControllerRuns.ReloadDoublesReport | node/task.go:160-165 | a reload that meets the report task in its Execute leaves a single loop of it if and only if it does not change its interval |
| ControllerRuns.ReportIntervalIsAPull | node/task.go:160-165 | over all ticks the report task has the interval it started with or one of the pull intervals announced |
| Traffic.TrafficCounter.Rx | common/counter/traffic.go:66-69 | adds to the downward count of a key, making its counter if need be |
| Traffic.TrafficCounter.Tx | common/counter/traffic.go:71-74 | adds to the upward count |
| Traffic.TrafficCounter.Reset | common/counter/traffic.go:55-60 | zeroes one existing counter and makes none |
| Traffic.TrafficCounter.GetCounter | common/counter/traffic.go:21-30 | the storage of the key, made if need be, with the counts it had |
| Traffic.TrafficCounter.Delete | common/counter/traffic.go:62-64 | exactly this counter is gone |
| Traffic.HookServer.LogTraffic | core/hy2/hook.go:28-59 | counts both directions unless the node is unknown or the user has just run over his limit, in which case only his flag is cleared |
| Traffic.Node.GetUserTrafficSlice | core/hy2/user.go:73-94 | for every range order: each known counter above the threshold listed once, and the counters afterwards |
| Traffic.Node.Visit | core/xray/user.go:66-87 | one counter of the drain: kept, zeroed or deleted, and what is listed for it |
| Traffic.ListedWhen | core/hy2/user.go:76-91 | a key is listed if and only if up and down of its counter together exceed the threshold and somebody is known for it, with his uid and both counts |
| Traffic.LeftWhen | core/hy2/user.go:78-86 | what a drain leaves of each counter; after one that resets none exceeds a non-negative threshold |
| Traffic.ClearedFlag | core/hy2/hook.go:37-43 | the refused call takes the flag down and changes nothing else |
| Traffic.UseNode | core/hy2/user.go:44-101 | any calls of a node's logger and drain, and changes of its users, are a run |
| Traffic.ReportUserTraffic | api/panel/user.go:125-129 | the reported map, in which a later entry replaces an earlier one of the same uid |
| Traffic.ReportKeepsTotal | api/panel/user.go:125-129 | the map never totals more than the slice, and as much if and only if no two entries share a uid |
| Traffic.SharedUidLosesTraffic | api/panel/user.go:125-129 | two entries of one uid whose map totals less |
| Traffic.ReportHoldsTheLast | api/panel/user.go:125-129 | a report of a drain has, for each uid, the counts of exactly that key whose entry is the last one of this uid |
| Traffic.DrainReports | core/hy2/user.go:73-94 | among users with uids of their own it has for each exactly his counter, if that was above the threshold |
| Traffic.StepMoves | core/hy2/user.go:44-101 | a step leaves a counter as it is but for what it logs, or takes everything out of it |
| Traffic.RunConserves | node/user.go:10-23 | over every run of logging, draining, reporting, deleting and changing users, for every key and direction: logged equals pending plus reported plus lost, in exactly one of four ways |
| Traffic.NothingIsLostWhen | node/user.go:11-18 | nothing of a key is lost if and only if no drain that found its counter above the threshold had its report fail, knew nobody for it or listed another entry of its uid later, and it was never deleted with bytes in it |
| Traffic.FailingReportLosesTraffic | node/user.go:11-18 | a run in which a failing report loses five bytes |
| TrafficRace.RunAccounts | common/counter/traffic.go:21-74 | over every interleaving, per counter and direction: what was added equals what was listed, what a drain can still get at, what was deleted under a counter, what the drain holds, what it threw away and what fell between load and store; nothing is listed twice |
| TrafficRace.NothingIsMissingWhen | core/hy2/user.go:44-101 | between drains everything added is listed or pending if and only if no Add came between a load and its store, no drain left a storage without a user for what it held, and no step deleted a key whose storage held bytes or received any later |
| TrafficRace.UsersSetLast | core/hy2/user.go:29-61 | over every run the users are those set last, and they change between drains only |
| TrafficRace.StoresWhenOver | core/hy2/user.go:78-82 | zero is stored only when the loaded values together exceed the threshold |
| TrafficRace.ListsWhenOver | core/hy2/user.go:78-92 | a visit ends with an entry if and only if the loaded values together exceed the threshold and somebody is known for the key; above it the key of an unknown user is deleted |
| TrafficRace.StepMoves | core/hy2/user.go:73-94 | no atomic step makes or destroys a byte: what it adds, lists, throws away or wipes out is what counter and hand change by |
| TrafficRace.ReturnedIsListed | core/hy2/user.go:89-99 | in every interleaving the slices the drains return hold exactly the listed entries, in order, each read from one storage at the end of one visit |
| TrafficRace.LostWhen | core/hy2/user.go:76-82 | bytes are lost if and only if an Add comes between a load and the store of the same visit |
| TrafficRace.LossIsWhatFallsInBetween | core/hy2/user.go:76-82 | a store replaces by zero what was loaded, which the drain keeps, and exactly the bytes added by the steps since that load |
| TrafficRace.BytesCanGetLost | core/hy2/user.go:76-82 | a run without deletions that loses a byte |
| TrafficRace.BytesCanBeDiscarded | core/hy2/user.go:83-86 | a run in which a drain throws away what it took from a storage nobody is known for |
| TrafficRace.LinkedUntil | common/counter/traffic.go:21-30 | a storage is found by a key from its making until a step takes that key away, and never again |
| TrafficRace.DroppedWhen | common/counter/traffic.go:62-64 | between drains bytes are out of reach if and only if their key was taken away and no store took them |
| TrafficRace.DeleteCutsOff | common/counter/traffic.go:62-64 | a deletion puts the storage out of reach if and only if the drain is not at it |
| TrafficRace.CutOffForGood | common/counter/traffic.go:62-74 | what is out of reach stays so, collects what is still added, and is never reported |
| TrafficRace.DeleteDrops | core/hy2/user.go:48-51 | over every run, deleting a user while the drain is elsewhere drops what his counters hold and whatever is still added to them |
| TrafficRace.DeletedBytesAreDropped | core/hy2/user.go:48-51 | a run in which a deletion drops five bytes |
| TrafficDrains.ValueIsFound | common/counter/traffic.go:66-74 | over every interleaving of any number of drains a counter holds what was added since its last store |
| TrafficDrains.EntryHolds | core/hy2/user.go:76-91 | an entry holds exactly what was added between the last store before its load and that load |
| TrafficDrains.EntryIsAppended | core/hy2/user.go:87-91 | and that is what its drain appends to its slice |
| TrafficDrains.TwiceWhen | core/hy2/user.go:73-94 | two entries hold the same bytes if and only if one visit loads after the other has loaded some, with no store in between |
| TrafficDrains.OverlapTakesTwo | core/hy2/user.go:76-81 | that takes two drains, and the second load falls between the load and the store of the first |
| TrafficDrains.ByteIsListedTwice | core/hy2/user.go:76-91 | a run of two drains that list the only byte added twice |
| OnlineReport.GroupOnline | node/user.go:28-46 | exactly the online uids without a traffic record below the minimum, each with all its IPs in order |
| OnlineReport.NoCount | node/user.go:30-36 | exactly the uids with a traffic record below the minimum |
| OnlineReport.Counted | node/user.go:37-41 | the others keep their entries in order |
| OnlineReport.Group | node/user.go:42-46 | the entries by uid, in order |
| OnlineReport.IpsOfCount | node/user.go:42-46 | grouping keeps every entry's multiplicity |
| PeriodicTask.Task.Start | common/task/task.go:16-24 | does nothing while running, else opens a new channel and a new loop |
| PeriodicTask.Task.Close | common/task/task.go:57-64 | closes the current channel of a running task |
| PeriodicTask.Task.CloseChannel | common/task/task.go:61-61 | closing a channel twice panics |
| PeriodicTask.Task.Begun | common/task/task.go:26-28 | the first step of a loop |
| PeriodicTask.Task.Entered | common/task/task.go:37-42 | a loop waits on whichever channel is current when it enters the select |
| PeriodicTask.Task.Returned | common/task/task.go:44-50 | what the return of an Execute does, failing or not |
| PeriodicTask.Task.Fired | common/task/task.go:38-44 | a loop whose time is up executes |
| PeriodicTask.Task.Stopped | common/task/task.go:40-41 | a loop that sees its channel closed exits |
| PeriodicTask.WhatLoopsCanDo | common/task/task.go:26-50 | exactly the steps a loop can take where it is |
| PeriodicTask.LoopAccounts | common/task/task.go:26-51 | over every run: executions begun, returned from and under way, entries into the select and exits balance for every loop |
| PeriodicTask.ExecutesWhen | common/task/task.go:26-44 | a loop is in Execute if and only if its last step was that its time was up, or its begin if it was to execute at once |
| PeriodicTask.OneExecutionPerRound | common/task/task.go:37-51 | between two entries of a loop into its select it executes once and returns once |
| PeriodicTask.StepInvariant | common/task/task.go:16-64 | every single step keeps the invariant or panics, and it panics exactly when an Execute fails while the task is not running |
| PeriodicTask.RunInvariant | common/task/task.go:16-64 | over all interleavings with no failing Execute: running exactly when the current channel is open, no channel closed twice, every waiting loop on a closed channel or the current one |
| PeriodicTask.RunPanics | common/task/task.go:44-50 | a run panics if and only if some Execute failed while the task was not running |
| PeriodicTask.FailingAfterClosePanics | common/task/task.go:26-34 | a run that panics |
| PeriodicTask.AfterClose | common/task/task.go:16-64 | over every run of a new task with positive intervals and no failing Execute: from a Close on that no Start follows no loop begins another round, all loops together take at most four steps each, and when none can step all have exited |
| PeriodicTask.AllLoopsExit | common/task/task.go:37-51 | the same from any closed state: every step of a loop brings it nearer to its exit |
| PeriodicTask.EagerLoopFires | common/task/task.go:37-44 | without a positive interval a loop may execute after a Close |
| PeriodicTask.LoopCanStep | common/task/task.go:37-51 | and no loop gets stuck on the way |
| PeriodicTask.StartAfterClose | common/task/task.go:16-42 | a Start that takes effect leaves a single live loop if and only if no earlier loop is between two waits |
| PeriodicTask.OldLoopJoins | common/task/task.go:37-51 | a run in which a loop that was executing during a Close and a Start ends up waiting on the new channel beside the new loop |
| PeriodicTask.RestartFromWithin | node/task.go:154-159 | closing and starting a task from its own Execute leaves two live loops |
| PeriodicTask.RunOneLive | common/task/task.go:16-64 | over runs whose Starts find no busy loop there is never more than one live loop |
| Dispatcher.CachedReader.Cache | core/xray/app/dispatcher/default.go:44-59 | delivered, cached and unread bytes stay the same stream; the payload is the longest prefix of the undelivered cached bytes that fits; a failed read changes nothing |
| Dispatcher.CachedReader.ReadInternal | core/xray/app/dispatcher/default.go:61-72 | takes the whole cache, if there is any, and empties it |
| Dispatcher.CachedReader.ReadMultiBuffer | core/xray/app/dispatcher/default.go:61-90 | delivers the cache if there is any and else what the pipe gives, the next bytes of the stream in either case |
| Dispatcher.UseReader | core/xray/app/dispatcher/default.go:44-90 | over any calls in any order what comes out is a prefix of what was to be delivered, as many bytes as the reads took, and the stream is the same |
| Dispatcher.Sniffer.Sniff | core/xray/app/dispatcher/sniffer.go:58-82 | the first result among the sniffers of the network, else the no-clue sniffers in order, never a request for more data |
| Dispatcher.Sniffer.SniffMetadata | core/xray/app/dispatcher/sniffer.go:84-109 | the same for the metadata sniffers, keeping all others |
| Dispatcher.FoundWhen | core/xray/app/dispatcher/sniffer.go:58-82 | there is a result exactly when some content sniffer of the connection's network has found something |
| Dispatcher.FoundIsFirst | core/xray/app/dispatcher/sniffer.go:58-82 | it is the result of the first such sniffer, whatever the sniffers behind it answer |
| Dispatcher.PendingWhen | core/xray/app/dispatcher/sniffer.go:61-70 | asked again are exactly the content sniffers of this network without a clue |
| Dispatcher.MetaIsFirst | core/xray/app/dispatcher/sniffer.go:84-109 | the result is that of the first metadata sniffer that has one |
| Dispatcher.PendingMetaWhen | core/xray/app/dispatcher/sniffer.go:84-96 | kept are the content sniffers and the metadata sniffers without a clue |
| Dispatcher.CompositeDecides | core/xray/app/dispatcher/sniffer.go:113-128 | of two results put together the first decides the domain and the second the protocol |
| Dispatcher.SniffContent | core/xray/app/dispatcher/default.go:478-512 | at most two looks at the stream whatever the clock does, nothing delivered, and the result, error, remaining sniffers and cache the attempts come to |
| Dispatcher.TwoLooks | core/xray/app/dispatcher/default.go:478-512 | when there is a second look, what it sees and asks, and what comes of the last look |
| Dispatcher.FailedLook | core/xray/app/dispatcher/default.go:480-489 | a look that fails ends the sniffing with its error and nothing lost |
| Dispatcher.SniffConnection | core/xray/app/dispatcher/default.go:466-520 | the client's stream is untouched whatever comes out, and a metadata result decides the domain |
| Dispatcher.Narrowing | core/xray/app/dispatcher/sniffer.go:58-82 | after any number of no-clue results the list holds exactly, in order, the sniffers of the network that had no clue every time |
| Dispatcher.NarrowingFindsTheSame | core/xray/app/dispatcher/sniffer.go:58-82 | asking the narrowed list finds what asking the whole list would find when final answers stay final |
| Links.LinkManager.AddLink | core/xray/app/dispatcher/linkmanager.go:29-33 | the link is there |
| Links.LinkManager.RemoveWriter | core/xray/app/dispatcher/linkmanager.go:35-39 | exactly this link is gone |
| Links.LinkManager.Close | core/xray/app/dispatcher/linkmanager.go:19-22 | closing a managed writer closes its writer and ends its link |
| Links.LinkManager.CloseAll | core/xray/app/dispatcher/linkmanager.go:41-46 | although each close deletes from the map being ranged over, every writer is closed and its reader interrupted exactly once and no link is left |
| Links.UseManager | core/xray/app/dispatcher/linkmanager.go:19-46 | any calls of a manager leave the links of the run, and close and interrupt what the run says, in order: the writer named, or every link there is once with its reader |
| Links.LinksAreOpenOnes | core/xray/app/dispatcher/linkmanager.go:29-39 | the links of a run are exactly the writers added and not closed since |
| Links.Xray.DelUser | core/xray/user.go:41-55 | one user: refused and untouched, or gone with every link ended once |
| Links.Xray.DelUsers | core/xray/user.go:32-58 | without a user manager nothing happens; else the users before the first refused name lose uid, counter and link manager, the others are untouched, and the writers closed and readers interrupted are exactly those of the lost links |
| Links.DeletedHaveNothing | core/xray/user.go:41-55 | a deleted user has neither uid nor counter nor link manager, and all others have what they had |
| Mimic.AddrIsRead | core/hy2/mimic/mimic_linux.go:225-232 | whatever settings or note follow an address, and however its line is indented, it is read |
| Mimic.FiltersCover | core/hy2/mimic/mimic_linux.go:205-223 | true if and only if some line of the output shows the address of every filter |
| Mimic.OutputShows | core/hy2/mimic/mimic_linux.go:210-216 | an output shows exactly the addresses of its filter lines, among any other lines |
| Mimic.FiltersFor | core/hy2/mimic/mimic_linux.go:297-325 | a client filters for the first of equal addresses each, a server for its own address or both families |
| Mimic.HostTexts | core/hy2/mimic/mimic_linux.go:327-338 | how each kind of address is written: IPv6 in brackets |
| Mimic.FilterTexts | core/hy2/mimic/mimic_linux.go:302-325 | the texts of the filters of both ends |
| Mimic.FirstOnesAreFirst | core/hy2/mimic/mimic_linux.go:302-311 | these stand in order at exactly the places where an address comes for the first time |
| Mimic.FirstOnesAreAll | core/hy2/mimic/mimic_linux.go:302-311 | none is missing and none comes twice |
| Mimic.PeerCovered | core/hy2/mimic/mimic_linux.go:205-325 | from the addresses of a peer to the decision: covered if and only if each of them is shown, in any order and with any settings and notes |

## Left out

- Limiter.Limiter.CheckLimit: the entries of UserLimitInfo and the inner IP maps are values in their maps, so two names sharing one entry object cannot be expressed; the source makes one object per name. Calls are atomic, and the time is an argument.
- Limiter.Registry.AddLimiter: domain and protocol rules are not part of a limiter here; matching regular expressions is opaque.
- Controller.Controller.NodeInfoMonitor: certificate and node calls only succeed or fail, and a failing core call leaves an arbitrary user map; rules are not modelled, updating them never fails. The traffic record of the dynamic speed task, which never runs, is left out.
- Controller.Controller.Start: the dynamic speed task is made but not started, and is left out.
- ControllerRuns.RunAgrees: a tick that panics ends the process and the run.
- Controller.Core.DelUsers: the deletion of the users' traffic counters on lines 48-51 is the event Forget of Traffic and the step Delete of TrafficRace.
- Traffic.RunConserves: counters are unbounded integers; wrap-around after 2^63 bytes is not modelled.
- Traffic.Node.Visit: the hysteria and xray drains are the same loop over different user maps and are modelled once.
- TrafficRace.RunAccounts: one drain at a time; a restarted report task can cause more, and TrafficDrains says what they list then. A drain resets what it reads, as its only caller asks for. That Range shows no key twice in one drain is what sync.Map promises, and the step Visit assumes it.
- PeriodicTask.AllLoopsExit: a positive interval is taken not to have run out before the select that starts it is entered.
- Dispatcher.CachedReader.Cache: a failing read of the pipe gives no bytes; the lock around the cache is left out because sniffing and reading follow one another. Interrupt, which drops the cache when a connection is given up, is not modelled.
- Links.Xray.DelUsers: managers are values per user and their pipes are numbered; closing a pipe does not fail.
- The counting wrappers of sing connections store instead of add in Read and Write (common/counter/conn.go:35-45) and keep no totals; they are not part of this model.
- Mimic.PeerCovered: starting Mimic, its lock files and the colour codes of its output are left out; a filter line has no F before its mark, and addresses have neither white space nor commas.
- The core selector and fake-DNS sniffers: looking up texts, which would add only easy members.
- Panel requests, configuration building, certificates, key files, routing and the third-party cores: effects behind interfaces this model takes as inputs.
- The dynamic speed task is created but never started (node/task.go:42-49); its effect on a limiter is an arbitrary step of a run.
