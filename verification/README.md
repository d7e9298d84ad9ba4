# Speedy Sweeties: verified models of the hard parts

A Dafny 4.11 project about the parts of the delivery platform whose correctness is not visible from one
function body: clocks that are paused, time zones that are inverted, requests that race, replies that get lost,
and canonical forms that must not depend on order. `dafny verify dfyconfig.toml` checks everything.

## What is modelled

| file | part of the system |
|---|---|
| `DispatchTiming.dfy` | the dispatch timer: paused milliseconds by sort-and-sweep, the waiting clock, the five-minute warning |
| `JsonPrinting.dfy`, `JsonReading.dfy`, `PolicyFingerprint.dfy` | the order-insensitive policy fingerprint: `json.dumps` text, a reader of it after sections 2 to 7 of RFC 8259, `normalized`, and the text that is hashed |
| `TorontoClock.dfy` | inverting wall-clock time by three fixed-point rounds across offset changes |
| `BndSchedule.dfy` | B&D opening hours: parsing, day windows, "open now, next change at", the next check |
| `BndPolling.dfy` | the status poller: one timer, one request, a dispose flag, cut at its awaits |
| `BndAlerts.dfy` | the alert state of a session and its view |
| `Baskets.dfy`, `PreviousOrders.dfy` | basket signatures, the two newest different baskets, the cursor walk over a customer's history |
| `OrderLifecycle.dfy`, `OrderRace.dfy` | the transition rules and conditional updates of one order row, and every interleaving of the requests that race for it |
| `OrderForm.dfy` | the website order form together with its address checker |
| `Pinboard.dfy` | the dispatcher pinboard: retried posts, lost replies, version-guarded status changes |
| `OrderAlarm.dfy` | the incoming-order alarm reducer |
| `QuiescentProbe.dfy` | the shared readiness probe of the quiescent server |
| `Options.dfy`, `Collections.dfy`, `Sorting.dfy` | an option type, facts about sequences and sets, and a stable sort standing for the library sorts |

Code that computes a value is a function. Code with a loop is a method with that loop, proved equal to a function
or to a property. Closures and rows that are updated in place are classes whose methods are proved equal to state
functions; the machines over whole runs step by those same functions. An asynchronous function is cut at its
awaits, so the runs range over every order in which timers, replies and other requests can come between.

## Assumptions

- Instants are integer milliseconds, and each uninterrupted stretch of the poller reads the clock once.
- The Toronto clock is any offset function that is behind Greenwich by less than a day, changes at most once in
  48 hours, and never at or across a local midnight (`TorontoClock.Regular`; `OneShiftIsRegular` shows it is met).
- Text operations of the runtime (trimming, lower case, whitespace, `localeCompare`) are parameters. The collation
  is only assumed to be a total preorder, which it is; that it separates different names is not assumed but stated
  where it matters. Normalizing a name twice is assumed to change nothing more.
- JSON values are what Python's decoder can return: keys of an object differ, and no text holds the two halves of a
  surrogate pair as separate characters. A number is the literal it prints as.
- The database runs a conditional update atomically and keeps ids unique. The row lock of automatic dispatch and of
  the receipt flow makes their read, check and update one step.

## What the proofs found

- `JsonReading.SplitPairPrintsAlike`: without the decoder's guarantee on surrogates the printed text is not injective.
- `TiedNamesSplitABasket`: `localeCompare` may call two different names equal. Exactly then the signature depends
  on the order of the items, and one basket can have two signatures. `ItemOrderSplitsABasket` gives the orders: one
  item named "café" with a composed last letter, one named "cafe" with a combining accent. Trimming, collapsing spaces
  and lower case leave both names different, but they are canonically equivalent, and for such texts ECMA-262
  (section String.prototype.localeCompare) requires the result 0.
- docs/order-status-state-machine.md (lines 52-53) says that lifecycle timestamps are preserved. From acceptance on
  they are (`RunFollows`). A dispatch time before it is lost in exactly two ways (`DispatchTimeKeptExactly`): a
  withdrawal lands, or an update lands that writes the dispatch time of the row it read while the row now has another
  one. The updates compare the status of the row with the one read, not its dispatch time, so the second is possible
  after a withdrawal: `StaleAcceptanceRestoresOldDispatch` is an acceptance that lands on the same driver's next
  dispatch and puts the withdrawn time back, `StaleReassignmentRestoresOldDispatch` a reassignment that does so
  without any driver's request, leaving an order dispatched before it was assigned.
- Two more columns have exact conditions of the same form. An assignment time changes when an unassignment lands or an
  assignment that writes another one (`AssignmentTimeKeptExactly`); in `StalePriorityRestoresOldAssignment` that is the
  time of a withdrawn assignment. The time and the attribution of a dispatch come from two dispatches exactly when a
  late update writes back a dispatch time without the attribution (`DispatchKeptWhole`);
  `StaleReassignmentMixesDispatches` leaves an automatic dispatch at the time of a manual one. In a run without such an
  update one event wrote both (`DispatchIsOneEvent`).
- `EditedAfterVerification`: an order can be posted after the address was edited since its verification. The exact
  rule is in `EveryPostIsGood`: the key posted is always the verified one and the form's, and the address was touched
  since the verification if and only if the last thing done to it was to choose a suggestion that gave that key again.
  So no edit lies between a POST and what last selected its key (`NoEditSinceSelection`).
- `SkippedOpeningClosesFirst`: accepted opening hours from 02:30 to 03:15 close before they open on the day a clock change skips
  02:00 to 03:00. `WindowsForwardExactly` says for which hours and clock changes this happens.
- `AlertingExactly`: a last successful check that lies in the future always counts as one of the present window.
- `LandingIsApproved`: the rules allow a driver to accept a placed order, but no such update ever lands, since a
  placed order has no driver.
- Alarm snapshots need no unique ids: pending ids are distinct and a repeated snapshot changes nothing even when a
  snapshot repeats an id. (They are unique where the dashboard builds them, speedy-dispatcher/src/App.tsx:2873.)

## Model

| member | source | states |
|---|---|---|
| DispatchTiming.EditPauseMilliseconds | speedy-dispatcher/src/dispatchTiming.ts:9-26 | the total is the number of milliseconds from creation to the earlier of now and first dispatch that at least one valid pause covers; 0 without a usable creation time |
| DispatchTiming.TotalIsUnionMeasure | speedy-dispatcher/src/dispatchTiming.ts:9-26 | the sort-and-sweep total is the measure of the union of overlapping, nested, duplicated, unsorted or malformed pauses |
| DispatchTiming.TotalFromFields | speedy-dispatcher/src/dispatchTiming.ts:9-26 | the total counts the covered milliseconds from creation to now before the first dispatch time, or the dispatch time where there is no text for the first |
| DispatchTiming.SweepMeasures | speedy-dispatcher/src/dispatchTiming.ts:18-25 | the sweep over sorted ranges from any cursor counts each covered millisecond once |
| DispatchTiming.ClippedMembership | speedy-dispatcher/src/dispatchTiming.ts:14-18 | clipping keeps exactly the covered milliseconds inside the creditable span, and drops malformed pauses |
| DispatchTiming.TotalIgnoresOrderAndDuplicates | speedy-dispatcher/src/dispatchTiming.ts:9-26 | reordering or repeating pauses never changes the total |
| DispatchTiming.WaitingPlusPausedIsElapsed | speedy-dispatcher/src/dispatchTiming.ts:28-32 | from creation on, waiting plus paused time is exactly the elapsed time, and waiting is the measure of the uncredited milliseconds |
| DispatchTiming.WaitingAdvance | speedy-dispatcher/src/dispatchTiming.ts:28-32 | between two readings the clock advances by exactly the uncredited milliseconds, so it never runs back nor faster than time |
| DispatchTiming.PausedClockIsFrozen | speedy-dispatcher/src/dispatchTiming.ts:34-38 | across a span throughout which the timer shows paused, waiting time stands still |
| DispatchTiming.PausedMeansStandingStill | speedy-dispatcher/src/dispatchTiming.ts:34-38 | undispatched and with no pause that ends later, the timer shows paused if and only if the waiting clock is about to stand still; dispatched it never does |
| DispatchTiming.LateExactly | speedy-dispatcher/src/incomingOrderAlarm.ts:44-48 | an order is late exactly when it waits for acceptance with at least 300000 unpaused milliseconds since creation |
| DispatchTiming.LateStaysLate | speedy-dispatcher/src/incomingOrderAlarm.ts:44-48 | for fixed order data a late order stays late |
| DispatchTiming.MorePausesOnlyDelay | speedy-dispatcher/src/incomingOrderAlarm.ts:44-48 | adding pauses anywhere in the list can only delay lateness |
| JsonReading.TextsPrintAlike | scripts/privacyAwsReadOnly.py:161 | two strings print alike exactly when their UTF-16 units agree |
| JsonReading.SplitPairPrintsAlike | scripts/privacyAwsReadOnly.py:161 | a split surrogate pair and the character it encodes are different strings with one printed text |
| JsonReading.EscapeUnitPrefixFree | scripts/privacyAwsReadOnly.py:161 | no escape is a prefix of another, whatever follows |
| JsonReading.PrintDetermines | scripts/privacyAwsReadOnly.py:161 | wherever a value may stand in a JSON text, the printed text of a key-sorted value determines the value and where it ends |
| JsonReading.PrintedIsRead | scripts/privacyAwsReadOnly.py:161 | wherever a value may stand, its printed text is read as that value and no further by a reader fixed on its own characters: brackets, one colon a member, a comma between two, the words, one spelling of every character, lower-case hex, no space |
| JsonReading.OnlyPrintedIsRead | scripts/privacyAwsReadOnly.py:161 | whatever that reader reads as a key-sorted value is the value's printed text, character by character |
| JsonReading.PrintedExactly | scripts/privacyAwsReadOnly.py:161 | a text is the printed text of a key-sorted value exactly when it is read as that value to its end |
| PolicyFingerprint.FingerprintIsCanonical | scripts/privacyAwsReadOnly.py:152-161 | `normalized` agrees on two values, and so does the text hashed, exactly when they are the same up to the order of array items and object members at every depth |
| PolicyFingerprint.SameNormalizes | scripts/privacyAwsReadOnly.py:152-157 | values that are the same up to order have one normal form |
| PolicyFingerprint.NormalizedSame | scripts/privacyAwsReadOnly.py:152-157 | values with one normal form are the same up to order |
| PolicyFingerprint.NormalizedIdempotent | scripts/privacyAwsReadOnly.py:152-157 | normalizing twice is normalizing once |
| PolicyFingerprint.NormalizedIsSame | scripts/privacyAwsReadOnly.py:152-157 | normalizing only reorders: nothing is added, lost or changed |
| PolicyFingerprint.FingerprintReadsBack | scripts/privacyAwsReadOnly.py:160-161 | a text is the one hashed for a value exactly when it is read to its end as the normal form |
| PolicyFingerprint.NormalizedInOrder | scripts/privacyAwsReadOnly.py:152-157 | at every depth array items ascend by printed text and members by key, decided by the first differing character |
| TorontoClock.BndLocalInstant | speedy-dispatcher/src/bndSchedule.ts:37-46 | the loop computes three rounds of the fixed-point iteration from the target |
| TorontoClock.LocalInstantInverts | speedy-dispatcher/src/bndSchedule.ts:37-46 | near one offset change the result shows the requested wall time whenever some instant does, is the earlier instant of a repeated time, and for a skipped time is later by exactly the gap |
| TorontoClock.LocalDateMeaning | speedy-dispatcher/src/bndSchedule.ts:28-31 | the local date of an instant is the day its wall time falls in |
| TorontoClock.MidnightBoundary | speedy-dispatcher/src/bndSchedule.ts:37-46 | an instant is on or after a local date exactly when it is not before that date's computed midnight |
| TorontoClock.MinuteStaysInDay | speedy-dispatcher/src/bndSchedule.ts:37-46 | every minute of a day maps to an instant of that local day, skipped or not |
| TorontoClock.OneShiftIsRegular | speedy-dispatcher/src/bndSchedule.ts:37-46 | a clock with one offset change inside a day satisfies the assumption made on the Toronto clock |
| BndSchedule.ParseBndHours | speedy-dispatcher/src/bndSchedule.ts:54-77 | accepts exactly the well-formed responses, with seven different days, ordered minutes and an override inside its own local day, and returns their content |
| BndSchedule.DecodedIsValid | speedy-dispatcher/src/bndSchedule.ts:47-77 | accepted hours have a rule for every weekday, so the unchecked lookup of a day's rule never misses |
| BndSchedule.EncodedIsAccepted | speedy-dispatcher/src/bndSchedule.ts:54-79 | every valid schedule is accepted and comes back unchanged |
| BndSchedule.AcceptedIsEncoded | speedy-dispatcher/src/bndSchedule.ts:54-77 | an accepted response says exactly what its hours say, except an override for no such day with null times |
| BndSchedule.WindowOfRule | speedy-dispatcher/src/bndSchedule.ts:47-53 | on every date that falls on a rule's weekday and has no override the window is that rule's minutes as instants |
| BndSchedule.OpenByRule | speedy-dispatcher/src/bndSchedule.ts:80-92 | on such a date the schedule is open exactly from the opening to the closing instant, names the one still ahead, and is never open on a day off |
| BndSchedule.OpenByOverride | speedy-dispatcher/src/bndSchedule.ts:47-92 | on the date of an override its own instants decide |
| BndSchedule.GetBndSchedule | speedy-dispatcher/src/bndSchedule.ts:80-92 | the seven-day lookahead loop computes the schedule function the properties below are about |
| BndSchedule.WindowInsideDay | speedy-dispatcher/src/bndSchedule.ts:47-53 | the window of a date starts inside that local date and ends by the next local midnight |
| BndSchedule.ScheduleHolds | speedy-dispatcher/src/bndSchedule.ts:80-92 | `open` says whether now is inside its date's window, the next change is strictly later, and the answer holds at every instant until then, across dates, overrides and closed weeks |
| BndSchedule.DoneSchedule | speedy-dispatcher/src/bndSchedule.ts:87-91 | once today's window is over, the next change is the opening of the first later date that opens within seven days, else the next midnight |
| BndSchedule.CheckSkipsNoOpenInstant | speedy-dispatcher/src/bndSchedule.ts:93-96 | the next check is never before its argument and passes over no open instant |
| BndSchedule.RepeatReachesEarliestOpen | speedy-dispatcher/src/bndSchedule.ts:80-96 | with an open weekday, at most eight repetitions reach the earliest open instant, even when the override closes the only open day of the coming week |
| BndSchedule.RuleForwardExactly | speedy-dispatcher/src/bndSchedule.ts:37-53 | an opening minute maps before a later closing minute unless a clock change skips the opening time and the closing time follows the skipped span by no more than the gap after opening |
| BndSchedule.WindowsForwardExactly | speedy-dispatcher/src/bndSchedule.ts:47-53 | every window runs forward exactly when no clock change does that to a weekly rule on a date the override leaves to it |
| BndSchedule.SkippedOpeningClosesFirst | speedy-dispatcher/src/bndSchedule.ts:37-53 | accepted hours and a clock under which a day closes before it opens |
| BndPolling.BndStatusPolling.constructor | speedy-dispatcher/src/bndStatusPolling.ts:14-20 | a new poller is idle, without timer or request |
| BndPolling.BndStatusPolling.Schedule | speedy-dispatcher/src/bndStatusPolling.ts:22-30 | unless stopped, arms one timer for the earliest of the poll interval, the next change and the hours refresh, at least 1 ms away |
| BndPolling.BndStatusPolling.Poll | speedy-dispatcher/src/bndStatusPolling.ts:32-42 | does nothing when stopped or running; else clears the timer and starts an hours request if one is due, a status request if it is open, or ends |
| BndPolling.BndStatusPolling.AnswerHours | speedy-dispatcher/src/bndStatusPolling.ts:43-69 | takes over new hours or marks the saved ones, sets the next refresh, and continues the poll |
| BndPolling.BndStatusPolling.AnswerStatus | speedy-dispatcher/src/bndStatusPolling.ts:70-81 | reports a usable snapshot, or a failure only while it is open, and ends the poll |
| BndPolling.BndStatusPolling.FireTimer | speedy-dispatcher/src/bndStatusPolling.ts:29 | a timer that fires is gone and polls |
| BndPolling.BndStatusPolling.Stop | speedy-dispatcher/src/bndStatusPolling.ts:84-87 | disposes the poller and clears its timer |
| BndPolling.ArmedIsGood | speedy-dispatcher/src/bndStatusPolling.ts:22-30 | no sleep reaches past the next change of the schedule, and while it is open none exceeds ten seconds |
| BndPolling.PollDoes | speedy-dispatcher/src/bndStatusPolling.ts:32-69 | a poll while none runs clears the timer and asks for the hours if due, else ticks and asks for the status if open, else ends with a sleep to the earliest of its wake times |
| BndPolling.FirstPollDoes | speedy-dispatcher/src/bndStatusPolling.ts:14-48 | the very first poll asks for the hours where there is an address for them |
| BndPolling.HoursDo | speedy-dispatcher/src/bndStatusPolling.ts:43-69 | new hours are taken over and refreshed when they say, not within 30 seconds, or after 15 minutes; a failure keeps the old ones, marked as saved, for 15 minutes; the poll goes on |
| BndPolling.StatusDoes | speedy-dispatcher/src/bndStatusPolling.ts:70-81 | a usable status is passed on, anything else is reported as a failure exactly if it is still open, and the poll ends with a tick and a sleep |
| BndPolling.TimerAndStopDo | speedy-dispatcher/src/bndStatusPolling.ts:29-87 | the armed timer polls once, and stop clears it |
| BndPolling.DisposedDoes | speedy-dispatcher/src/bndStatusPolling.ts:73-87 | after stop an answer only ends the poll, and a poll does nothing |
| BndPolling.StepInv | speedy-dispatcher/src/bndStatusPolling.ts:15-87 | every event keeps: one request exactly while a poll runs, one timer exactly while none does, the timer variable naming it |
| BndPolling.PollerIsSafe | speedy-dispatcher/src/bndStatusPolling.ts:15-87 | in every reachable state at most one request is unanswered; once polled and until stopped exactly one of "a poll runs" and "one timer is armed" holds; status requests start only while open; no sleep passes a change |
| BndPolling.SilentAfterStop | speedy-dispatcher/src/bndStatusPolling.ts:84-87 | after stop nothing is called, requested or armed, whatever still arrives |
| BndPolling.StopClears | speedy-dispatcher/src/bndStatusPolling.ts:84-87 | stop leaves no timer behind in any reachable state |
| BndAlerts.ParseBndStatus | speedy-dispatcher/src/bndOrderAlerts.ts:40-66 | accepts exactly the well-formed responses, and those whose state or error code only reads as a known name, and returns all their fields, with distinct order ids |
| BndAlerts.NextChangeSameWindow | speedy-dispatcher/src/bndOrderAlerts.ts:68-82 | the next change after a past check is still ahead while open exactly when check and now lie in one opening window |
| BndAlerts.AlertingExactly | speedy-dispatcher/src/bndOrderAlerts.ts:68-82 | the alarm sounds exactly when something waits in this session, it is open, and the last success was in this same opening window or is dated in the future |
| BndAlerts.ViewExactly | speedy-dispatcher/src/bndOrderAlerts.ts:68-82 | the view shows the session's own snapshot and, unless monitoring is off, its orders; it is paused exactly when closed or paused by the monitor, and in trouble, else, exactly on a failed report, an error, or two minutes without success |
| BndAlerts.ActionsDo | speedy-dispatcher/src/bndOrderAlerts.ts:25-38 | another session switches the alarm on and forgets the rest; reports clear or set the failure and keep the switch |
| BndAlerts.PlainTextExactly | speedy-dispatcher/src/bndOrderAlerts.ts:57-58 | ids and numbers are one to 64 ASCII letters, digits, underscores and hyphens |
| BndAlerts.AlertingOpenSinceCheck | speedy-dispatcher/src/bndOrderAlerts.ts:68-82 | while the alarm sounds it has been open without a break since the last successful check |
| BndAlerts.ShownIsOwnLatestReport | speedy-dispatcher/src/bndOrderAlerts.ts:29-38 | after any actions a session is shown exactly the latest snapshot reported under its own token since it was last entered |
| Baskets.SignatureOf | speedy-dispatcher/src/manualPreviousOrder.ts:65-70 | the loop over the items builds the signature the properties below are about |
| Baskets.FieldsAreTheOrder | speedy-dispatcher/src/manualPreviousOrder.ts:16-51 | an order is loaded whole, item by item with its payment if that is one of five, or not at all, exactly if it has no item or one without a proper name or quantity |
| Baskets.QuantitiesTally | speedy-dispatcher/src/manualPreviousOrder.ts:65-69 | the quantity map holds every normalized name with a positive total once, with exactly that total |
| Baskets.SignatureIsBasket | speedy-dispatcher/src/manualPreviousOrder.ts:55-79 | equal signatures mean equal baskets, and equal baskets have equal signatures whatever the item order or splitting, if the collation separates the basket's names |
| Baskets.TiedNamesSplitABasket | speedy-dispatcher/src/manualPreviousOrder.ts:70 | if the collation ties two names of a basket, another order has the same basket and a different signature |
| Baskets.ItemOrderSplitsABasket | speedy-dispatcher/src/manualPreviousOrder.ts:65-70 | two usable orders with the same two items in opposite order, whose names the collation ties, have the same basket and different signatures |
| PreviousOrders.GetDistinctPreviousOrders | speedy-dispatcher/src/manualPreviousOrder.ts:55-79 | the loop with its set of signatures computes the selection |
| PreviousOrders.DistinctIsNewestTwo | speedy-dispatcher/src/manualPreviousOrder.ts:55-79 | the selection is the newest usable order, then the newest usable order with a different basket, nothing eligible between or before |
| PreviousOrders.DistinctByPages | speedy-dispatcher/src/LoadPreviousOrder.tsx:42-71 | selecting from the earlier selection and the next page is selecting from all pages so far |
| PreviousOrders.TwoSuffice | speedy-dispatcher/src/LoadPreviousOrder.tsx:42-71 | once two orders are selected, older pages cannot change the selection |
| PreviousOrders.WalkPage | src/controllers/customer.controller.ts:500-549 | page k of the walk is the k-th twenty of the history as it was at the start, even when newer orders have come in front |
| PreviousOrders.PagesOfTwenty | src/controllers/customer.controller.ts:500-549 | pages are the consecutive twenties of the history, the last one what is left |
| PreviousOrders.OddCursors | src/controllers/customer.controller.ts:500-549 | a cursor is refused exactly when blank or longer than 200, and one of no order of the customer has nothing after it |
| PreviousOrders.ShowPage | speedy-dispatcher/src/LoadPreviousOrder.tsx:60-67 | one turn shows the selection over everything fetched so far and is loading only while fewer than two are found and a cursor is left |
| PreviousOrders.FetchHistory | speedy-dispatcher/src/LoadPreviousOrder.tsx:42-71 | the loop ends for any finite set of cursors, ready or as an error exactly as its replies say, showing one selection over the pages fetched; against an honest server it is the selection over the whole history |
| PreviousOrders.WalkHistory | speedy-dispatcher/src/LoadPreviousOrder.tsx:42-76 | the server fixes every cursor asked for and every reply; the walk ends as an error on a bad reply or a cursor seen before, ready once two orders are found or no cursor is left, and shows one selection over what it fetched |
| PreviousOrders.HonestEnd | speedy-dispatcher/src/LoadPreviousOrder.tsx:42-71 | against an honest server every such walk ends ready with the selection of the whole history |
| PreviousOrders.HonestTurn | speedy-dispatcher/src/LoadPreviousOrder.tsx:42-71 | a turn that stops, early or at the end, has the selection of the whole history; any other goes on with the walk |
| PreviousOrders.HonestPage | speedy-dispatcher/src/LoadPreviousOrder.tsx:42-71 | each turn fetches exactly the next page, and the next cursor has never been visited |
| OrderLifecycle.OrderRecord.AssignDriver | src/controllers/orderAssignment.controller.ts:247-295 | the update lands only on the status that was read and with the driver lock, and then writes driver, assignment time and, for a placed or dispatched order, dispatch status, time and attribution |
| OrderLifecycle.OrderRecord.UnassignDriver | src/controllers/orderAssignment.controller.ts:109-124 | the update lands only on the status that was read, clears driver and assignment time, and withdraws a dispatch |
| OrderLifecycle.OrderRecord.DriverUpdate | src/controllers/driverAction.controller.ts:140-248 | the update lands only on the status that was read and while that driver is assigned, and stamps the times still missing |
| OrderLifecycle.OrderRecord.CancelOrder | src/controllers/order.controller.ts:1231-1242 | the update lands only on the status that was read and records time, former status and reason |
| OrderLifecycle.TransitionTable | src/services/orderStateTransition.service.ts:49-129 | the whole table of permitted changes by actor, status, target and receipt |
| OrderLifecycle.StampedTimes | src/services/orderStateTransition.service.ts:131-170 | column by column and for any row, a change fills its own time and every earlier one still missing and keeps those that were read |
| OrderLifecycle.AttributedOnce | src/utils/dispatchAttribution.ts:8-31 | only a first dispatch is attributed, to the driver or to the user by name |
| OrderLifecycle.DriverDispatches | src/controllers/driverAction.controller.ts:140-248 | a driver's update of an order never dispatched counts as the driver's own dispatch |
| OrderRace.UpdateKeeps | src/controllers/orderAssignment.controller.ts:109-295 | an update built from a stale row keeps the row sound, never starts from a final status, and overwrites no time from acceptance on |
| OrderRace.StepInv | src/controllers/driverAction.controller.ts:89-268 | every step of every request keeps the invariant on the row, on all rows read earlier and on loyalty owed |
| OrderRace.EveryRunIsSound | src/controllers/orderAssignment.controller.ts:55-309 | under every interleaving: a dispatched order has a driver, a driver comes with an assignment time and only then, a placed order has no dispatch time, dispatcher or source, times match the status, and loyalty is credited at most once and only when delivered |
| OrderRace.LandingIsApproved | src/controllers/driverAction.controller.ts:123-248 | every update that lands starts from exactly the status its check approved, from no final status, for a driver only while assigned, and a cancellation records exactly the status it ended |
| OrderRace.CommitWrites | src/controllers/orderAssignment.controller.ts:109-295 | in every reachable state a commit lands exactly if the status is the one read, a driver's if still assigned, an assignment's with the lock; it sets the time of its own step to that of the request and leaves every other column; a landed delivery leaves one credit to give |
| OrderRace.ReadExactly | src/controllers/driverAction.controller.ts:89-118 | which requests go on after reading the row, and with which snapshot |
| OrderRace.CheckExactly | src/services/orderStateTransition.service.ts:49-129 | in every reachable state every assignment and unassignment passes its check, a driver's exactly for the next step, from pickup on with a receipt, and a cancellation of an order not final |
| OrderRace.LockedWrites | src/services/autoDispatchPickupPlan.service.ts:383-510 | what automatic dispatch and receipts write in every reachable state |
| OrderRace.StatusSteps | src/services/orderStateTransition.service.ts:49-129 | in every run the status moves along five lines and to cancellation only |
| OrderRace.DeliveredRun | src/controllers/driverAction.controller.ts:140-268 | a run from a new order to one assigned, accepted, picked up, delivered and credited, with its five times |
| OrderRace.RunFollows | src/services/orderStateTransition.service.ts:131-170 | over any stretch of a run final rows never change, from acceptance on times are written once, and the dispatch time is too while no dispatch has been withdrawn |
| OrderRace.DispatchTimeKeptExactly | src/controllers/orderAssignment.controller.ts:272-295 | in every reachable state an event keeps a dispatch time if and only if it is not a landing withdrawal nor a landing update that writes the dispatch time of a row read with another one; what it writes then is the time that was read |
| OrderRace.DispatchTimeOverRun | src/controllers/orderAssignment.controller.ts:109-295 | over any stretch of a run without such an event the dispatch time stays |
| OrderRace.StaleAcceptanceRestoresOldDispatch | src/controllers/driverAction.controller.ts:140-160 | a run in which an acceptance read before a withdrawal puts the withdrawn dispatch time back |
| OrderRace.StaleReassignmentRestoresOldDispatch | src/controllers/orderAssignment.controller.ts:272-295 | a run in which a reassignment read before a withdrawal does the same, so that the order is dispatched before it is assigned |
| OrderRace.AssignmentTimeKeptExactly | src/controllers/orderAssignment.controller.ts:247-295 | in every reachable state an event keeps an assignment time if and only if it is no landing unassignment and no landing assignment that writes another one, which is the one read for the driver read and the request's time for any other |
| OrderRace.StalePriorityRestoresOldAssignment | src/controllers/orderAssignment.controller.ts:272-295 | a run in which a change of priority read before a withdrawal puts the withdrawn assignment time back |
| OrderRace.DispatchKeptWhole | src/controllers/orderAssignment.controller.ts:272-295 | in every reachable state an event leaves the time of one dispatch beside the attribution of another if and only if it lands with a dispatch time read from an earlier dispatch |
| OrderRace.DispatchIsOneEvent | src/utils/dispatchAttribution.ts:8-31 | in a run without such an event one event wrote both the time and the attribution of a dispatched order |
| OrderRace.StaleReassignmentMixesDispatches | src/controllers/orderAssignment.controller.ts:272-295 | a run that ends with an automatic dispatch at the time of a withdrawn manual one |
| OrderForm.OrderPage.OnSubmit | webflow/order-form.js:434-577 | a submission is ignored while one runs or an outcome is unconfirmed; else it starts an address check and drops the earlier selection |
| OrderForm.OrderPage.OnVerifyAnswer | public/webflow/address-autocomplete.js:189-211 | the answer counts only for the present generation and an unchanged key, and then the form waits for an opening-hours answer, of a request already pending or a new one |
| OrderForm.OrderPage.OnStatusAnswer | webflow/order-form.js:389-419 | the POST is sent only if not closed and the selection equals both the form's key and the payload's |
| OrderForm.OrderPage.OnPostAnswer | webflow/order-form.js:321-350 | the answer is a known rejection, a full acknowledgement or ambiguous, and only the last makes the form unconfirmed |
| OrderForm.OrderPage.OnDetails | public/webflow/address-autocomplete.js:103-130 | details of a suggestion count only if nothing was touched since it was chosen |
| OrderForm.OrderPage.OnAddressInput | public/webflow/address-autocomplete.js:162-168 | an edit drops the selection and outdates every pending answer |
| OrderForm.LoadedDoes | webflow/order-form.js:389-419 | a page just loaded has asked for the hours and takes the answer |
| OrderForm.SubmitDoes | webflow/order-form.js:434-577 | a submit event starts an address check exactly when none runs, no outcome is open and all fields are filled |
| OrderForm.VerifyDoes | public/webflow/address-autocomplete.js:189-211 | a check counts exactly when the address is verified and nothing was touched since it was asked |
| OrderForm.HoursAnswerDoes | webflow/order-form.js:389-419 | the hours answer sends the POST exactly when not closed and the selected key is the form's and the payload's |
| OrderForm.FieldsDo | public/webflow/address-autocomplete.js:162-186 | what typing, another city, choosing, Escape, a silent fill and the hours timer each change |
| OrderForm.DetailsDo | public/webflow/address-autocomplete.js:103-130 | a suggestion's details are taken exactly if nothing was touched since it was chosen |
| OrderForm.AnswersTold | webflow/order-form.js:298-319 | by status and body: what is a refusal, a reported closure and an order taken in full |
| OrderForm.AnswerDoes | webflow/order-form.js:321-350 | the submission ends, and stays unconfirmed exactly if the answer neither refuses nor takes the order, or there is none |
| OrderForm.NoPostAfterOpenOutcome | webflow/order-form.js:434-577 | once such an answer arrives while posting, no event of any kind ever leads to another POST |
| OrderForm.EveryPostIsGood | webflow/order-form.js:434-577 | over every run POSTs never overlap, each earlier one was clearly answered, none follows an ambiguous outcome, and each carries a key that the server verified in that submission and that is still the form's, with the address touched since if and only if a suggestion giving that key was the last thing chosen |
| OrderForm.NoEditSinceSelection | public/webflow/address-autocomplete.js:162-211 | no edit, choice or new submission lies between a POST and the verification or choice that last selected its key |
| OrderForm.EditedAfterVerification | public/webflow/address-autocomplete.js:186-211 | for every address, a run that posts it although it was edited after verification and chosen again |
| OrderForm.ReportedClosureStands | webflow/order-form.js:321-350 | a closure reported by the POST is not overwritten by an hours answer requested before it |
| OrderForm.StepInv | webflow/order-form.js:434-577 | every event of the page keeps the invariant behind the POST rules |
| Pinboard.Database.CreatePinboardNote | src/controllers/dispatcherPinboard.controller.ts:45-62 | stores a new id with its author's acknowledgement; for a known id stores nothing and answers success exactly for the same author and payload |
| Pinboard.Database.UpdateStatus | src/controllers/dispatcherPinboard.controller.ts:75-82 | changes exactly one note of the given version and opposite status, raising its version and setting or clearing resolver and time |
| Pinboard.Database.AnswerStatus | src/controllers/dispatcherPinboard.controller.ts:83-86 | a missing note is not found; a change that found neither its version nor its status is a conflict; else it is done |
| Pinboard.Database.ReadPinboardNote | src/controllers/dispatcherPinboard.controller.ts:64-73 | acknowledges an existing note once, keeping the first time |
| Pinboard.StatusKeeps | src/controllers/dispatcherPinboard.controller.ts:75-87 | every status request keeps: versions count the changes, which alternate and take one version each, and a note is resolved exactly when resolver and time are set |
| Pinboard.StepInv | speedy-dispatcher/src/DispatcherPinboard.tsx:84-121 | every click, delivery, loss and server action keeps the invariant on notes, drafts and messages, and keeps what is stored |
| Pinboard.OneNotePerDraft | speedy-dispatcher/src/DispatcherPinboard.tsx:111-121 | over every run two tries carry one id exactly when they are of one draft, at most one try of a draft creates a note, and a try answered with success carries exactly what is stored |
| Pinboard.AnswerMeans | src/controllers/dispatcherPinboard.controller.ts:45-62 | in every run an answered message succeeded if and only if the note stored under its id has its author and content, and else met a conflict |
| Pinboard.DeliveryAnswers | src/controllers/dispatcherPinboard.controller.ts:45-62 | the first message of a draft to arrive stores its note; a later one changes nothing |
| Pinboard.RetryAnswers | src/controllers/dispatcherPinboard.controller.ts:55-61 | a retry of a stored draft succeeds exactly if its content is unchanged |
| Pinboard.PostClickDoes | speedy-dispatcher/src/DispatcherPinboard.tsx:111-116 | a click sends one message with what the form holds under the kept id or a new one, unless one is awaited or a text is missing |
| Pinboard.ReplyDoes | speedy-dispatcher/src/DispatcherPinboard.tsx:84-119 | a success begins a fresh draft; any other reply, or none, keeps the draft and its id |
| Pinboard.StatusRequestDoes | src/controllers/dispatcherPinboard.controller.ts:75-82 | a status change takes effect exactly on the given version in the other status, and writes all it should |
| Pinboard.ReadRequestDoes | src/controllers/dispatcherPinboard.controller.ts:64-73 | marking as read records the first time, for a stored note |
| Pinboard.EveryNoteWasSent | src/controllers/dispatcherPinboard.controller.ts:45-62 | every stored note was created by a try that carried exactly its author and payload |
| Pinboard.EveryNoteIsGood | src/controllers/dispatcherPinboard.controller.ts:75-87 | in every run a note's version counts its status changes, won one per version and alternating, and it is resolved exactly when resolver and time are set |
| Pinboard.NotesAreKept | src/controllers/dispatcherPinboard.controller.ts:45-87 | a stored note keeps author and payload for the rest of the run, its version never falls, and acknowledgements keep their time |
| OrderAlarm.ReceiveSnapshot | speedy-dispatcher/src/incomingOrderAlarm.ts:75-94 | the loop with its growing and shrinking sets keeps exactly the entries chosen by position: the first incoming entry of a pending order, or the very first sighting |
| OrderAlarm.IncomingExactly | speedy-dispatcher/src/incomingOrderAlarm.ts:40-52 | an order a dispatcher entered never rings, and a customer's does from placing to delivery; it waits for acceptance while placed or dispatched and not accepted |
| OrderAlarm.ActionsDo | speedy-dispatcher/src/incomingOrderAlarm.ts:65-74 | acknowledging and switching empty the list, a test rings only an alarm that is on, a reset keeps the switch alone |
| OrderAlarm.PendingAfterSnapshot | speedy-dispatcher/src/incomingOrderAlarm.ts:75-94 | an order is pending after a snapshot exactly when the alarm is on and past its baseline and the order was pending and is still incoming, or was never seen and is incoming at first sight |
| OrderAlarm.SnapshotIdempotent | speedy-dispatcher/src/incomingOrderAlarm.ts:75-94 | receiving one snapshot twice is receiving it once, in any state and even if it repeats ids |
| OrderAlarm.WaitingIsLatest | speedy-dispatcher/src/incomingOrderAlarm.ts:90-92 | each order waiting for acceptance is listed once, in its latest form |
| OrderAlarm.RunInv | speedy-dispatcher/src/incomingOrderAlarm.ts:65-96 | in every run pending orders are distinct, incoming and seen, and only an alarm that is on and past its baseline has any |
| OrderAlarm.ResetStartsOver | speedy-dispatcher/src/incomingOrderAlarm.ts:73-74 | what follows a reset runs as from a new state |
| OrderAlarm.SeenIsSighted | speedy-dispatcher/src/incomingOrderAlarm.ts:76-82 | between resets `seen` is exactly the ids of all snapshots so far, so it only grows |
| OrderAlarm.BecomesPendingOnce | speedy-dispatcher/src/incomingOrderAlarm.ts:79-93 | an order becomes pending only at its first-ever sighting, with the alarm on and after the baseline |
| OrderAlarm.OneStretch | speedy-dispatcher/src/incomingOrderAlarm.ts:65-96 | an order that has been pending and is not is never pending again before a reset |
| OrderAlarm.StretchHasStart | speedy-dispatcher/src/incomingOrderAlarm.ts:65-96 | every pending order has been pending without a break since its first sighting |
| QuiescentProbe.QuiescentHandler.Handle | src/quiescentServer.ts:17-26 | liveness and all other requests are answered at once; a readiness request joins the probe in flight or starts one |
| QuiescentProbe.QuiescentHandler.CheckDone | src/quiescentServer.ts:27-31 | a callback clears the probe in flight only if it is its own, and answers unless the response is destroyed |
| QuiescentProbe.ArrivalDoes | src/quiescentServer.ts:17-26 | liveness is answered 200 and anything but readiness 503 at once; a readiness request waits on the probe in flight, or on a new one |
| QuiescentProbe.CallbackDoes | src/quiescentServer.ts:27-31 | a callback answers 200 if its probe went well and else 503, unless the response is destroyed, and clears only its own probe |
| QuiescentProbe.OneProbePending | src/quiescentServer.ts:15-33 | in every reachable state at most one database probe is pending |
| QuiescentProbe.OneReply | src/quiescentServer.ts:15-33 | every request gets at most one reply, and an undestroyed readiness request whose callback ran exactly one, with the result of the probe it joined |
| QuiescentProbe.WaitingIsAnswered | src/quiescentServer.ts:27-31 | in any reachable state a waiting request is answered once its probe settles and its callback runs |
| QuiescentProbe.LateCallbackKeepsNewer | src/quiescentServer.ts:28 | a late callback of an older probe never clears a newer one |
| QuiescentProbe.AnswersAreCurrent | src/quiescentServer.ts:26 | once the callbacks of settled probes have run, an arriving request joins a probe that has not settled yet |
| QuiescentProbe.NothingIsTakenBack | src/quiescentServer.ts:15-33 | a settled result and a written reply never change for the rest of a run |

## Left out

- PolicyFingerprint.FingerprintIsCanonical: numbers are compared as the literals they print as, so Python's equality of `1`, `1.0` and `True` and the literals `NaN` and `Infinity` are not modelled; SHA-256 is left out, the statement is about the text hashed.
- TorontoClock.LocalInstantInverts: is about any clock with one offset change near the wall time, in integer milliseconds; the ICU formatting that reads the offset is a parameter.
- BndSchedule.ParseBndHours: instants with a fraction of a millisecond, which the code accepts, are outside the model; the date text is a day number. Which texts name no day and are still read as a date is up to the runtime; such an override is accepted only with null times and overrides nothing.
- BndSchedule.RepeatReachesEarliestOpen: needs an open weekday and windows that run forward; WindowsForwardExactly says when they do.
- BndPolling.PollerIsSafe: the ten-second abort timers of the requests are not modelled; an abort is one of the ways a request fails.
- Baskets.SignatureIsBasket: quantities are exact reals; the database stores them as integers (prisma/schema.prisma:559), whose sums doubles hold exactly. The JSON text of the sorted lines is represented by the lines.
- PreviousOrders.FetchHistory: aborts by closing the dialog and customer lookup itself are left out.
- OrderForm.EveryPostIsGood: "no edit event after verification" is false of the code; the exact condition is stated instead, and that no edit follows the last selection of the key.
- OrderRace.RunFollows: "a dispatch time is never overwritten" is false of the code; DispatchTimeKeptExactly has the exact condition.
- Other writers of the order row (address and item edits, privacy deletion, synthetic orders), pickup stops, priority, dispatch events, notifications and the edit lease service.
- The arithmetic of the loyalty credit: only how often it is given.
- Driver availability: the locked driver check of an assignment is a flag that may come out either way.
- Page lifetime, visibility and online events beyond a repeated hours request, the missing address checker script, and form fields other than the address.
- HTTP, authentication, database connections, React rendering, maps, audio, and address suggestion search: no deep invariant of their own.
- Listing, paging and unread counts of the pinboard, and presentation of notes.
