# wifi-presence: a verified model

wifi-presence watches the Wi-Fi stations of hostapd access points and keeps, at an MQTT
broker, one retained message per tracked station that says whether it is home. This project
models that program in Dafny and proves what it owes its users: that the broker tells the
truth, and when exactly it does.

`dafny verify dfyconfig.toml` checks the whole project.

## Structure

| file | what it models |
|---|---|
| `Mac`, `Topics` | hardware addresses, their text and JSON forms; the MQTT topics of a device |
| `Broker` | the MQTT client and the broker's retained messages (section 3.3.1.3 of MQTT Version 3.1.1: the last retained payload of a topic wins, an empty one clears it) |
| `Debounce` | class `Debouncer`: at most one delayed callback a MAC, with timers that expire before their goroutine gets the mutex |
| `DebounceRuns` | every interleaving of the debouncer's critical sections with its timers |
| `Presence` | the presence state machine on values: stations, queue and broker, one handler a step |
| `Daemon` | class `Daemon`: the handlers as they update their maps in place, proved against `Presence` |
| `OneStation` | the machine of a single station, and that the daemon is many of them, independent of each other |
| `Agreement` | what holds in every reachable state of stations, queue and broker |
| `Reconcile` | what a configuration does, in whatever order the runtime iterates over the changes |
| `Timed` | what the broker retains, as a closed form of the history of events |
| `Draining` | where the daemon gets to when only its timers are left to happen |
| `Traces` | the cause, among the events, of everything that is published |
| `Locks` | the two mutexes, with any number of threads |
| `Scan`, `Ssid`, `Replies`, `Events` | the text of the hostapd control protocol: parsers against encoders |
| `Control` | commands on the control socket and the walk along the list of stations |
| `Listings` | from what the access points answer to what a configuration announces |
| `Attach` | the attach loop with its concurrent canceller |

The classes carry the program's own loops and updates. Each of their methods equates the new
state with a function of the old one (`Presence.Connect`, `Presence.Configure`,
`Debounce.Enqueue`, `Control.Walk`, `Attach.Fold` and so on); the theorems are about these
functions and about sequences of steps built from them. A handler is one step. A timer takes
two: it expires, and later its goroutine takes the entry and calls the callback. A step that
ends in an error ends the run, as the error group cancels everything (`internal/presence/daemon.go:141-182`).

## What the proofs found

Each of these is a lemma below.

- A configuration that names one MAC twice overwrites its own entry among the changes. Such a
  device can be tracked without ever being announced (`Agreement.RepeatedDeviceIsOverlooked`).
  A configuration overlooks a MAC if it starts to track it by a repeated entry while the broker
  retains anything but `not_connected` for it, and hides a name if it ends by repeating a name
  that it has just introduced. That is exactly what breaks agreement and discovery: each holds
  throughout a run iff no configuration of the run does so (`AgreementExactly`,
  `DiscoveryExactly`), and the closed form of what the broker retains holds iff none overlooks
  the MAC (`Timed.RetainedStateIsTheHistory`).
  Its listing of the stations is not consulted either: a device added by a repeated entry is
  connected and announced as listed iff it is named once, or nobody lists it and the broker
  says so already (`Reconcile.AnnouncedAsListedExactly`, failing at
  `RepeatedDeviceIsNotLookedUp`).
  Applying a configuration twice does nothing exactly if discovery is off or no device ends
  on a renaming (`Reconcile.AgainDoesNothing`, failing at `TwoNamesAreRegisteredAgain`).
- A timer's goroutine asks whether its MAC is queued, not whether the entry is its own. One
  that was cancelled too late consumes a newer entry, before its debounce time is over
  (`DebounceRuns.StaleGoroutineTakesNewerEntry`). That cannot happen where every accepted
  enqueue finds no goroutine on its way (`TakesItsOwnInTime`), and can wherever one does not
  (`AnyGoroutineMayTakeIt`). Nothing is lost or duplicated by that (`Conservation`), and the agreement of broker and stations survives it.
- The agreement is owed to handlers that do not overlap: a connect between the two halves of a
  goroutine's step leaves the broker wrong, and nothing queued to correct it
  (`Agreement.ConnectWithinTheStep`).
- A STA-NEXT that gets no reply, or an unknown-command reply, passes for the end of the list
  (`Control.WalkEncoded`), and a list that repeats an address is walked for ever
  (`Control.RepetitionIsWalkedForEver`).
- An attach that is cancelled still ends with an error if the server's OK is read before the
  canceller has closed its channel (`Attach.EarlyOKIsAnError`).
- An SSID that ends in a hexadecimal escape without digits decodes without an error, to nothing
  for these two bytes (`Ssid.BareHexIsNothing`); no other text that ends inside an escape is
  accepted (`Ssid.OnlyBareHexIsUnfinished`).

Where the code and its documentation differ, the model follows the code: addresses print in
upper case (`internal/presence/mac.go:13` says lower case), and the state payloads are
`connected` and `not_connected` (`README.md:202` says home and not_home).

## Model

| member | source | states |
|---|---|---|
| Timed.RetainedStateIsTheHistory | internal/presence/daemon.go:208-502 | With timers of the MAC prompt, for every run: in every state and at every time at which nothing is due, the MAC is tracked iff the latest configuration names it, and then the broker retains "connected" iff the events alone say so (it got home while tracked, and no disconnect from that access point since is as old as the debounce time), iff no configuration of the run overlooks the MAC. |
| Timed.RetainedStateAt | internal/presence/daemon.go:208-502 | The closed form of one state and time, in terms of the daemon's stations and the broker. |
| Timed.RetainedStateOfCell | internal/presence/daemon.go:294-350 | The form holds for the machine of one station as long as no step has overlooked it. |
| Timed.FormOfCells | internal/presence/daemon.go:222-232 | For that machine the form holds in every state iff no step overlooks it. |
| Timed.OverlookedIsWrong | internal/presence/daemon.go:222-232 | Right after the first step that overlooks the station the form is false. |
| Timed.HomeAtByHistory | internal/presence/debounce.go:44-52 | Only the first disconnect since the station got home counts: repeated ones never move the deadline. |
| Timed.TellsStep | internal/presence/daemon.go:372-495 | The inductive invariant behind it: after every step the station, its entry's deadline and the retained state are those that the latest home-coming and the first leaving since determine. |
| Timed.NothingDueKeepsEntry | internal/presence/debounce.go:55-70 | When nothing is due, a station that left is still announced as home exactly until its deadline. |
| Agreement.Agreement | internal/presence/daemon.go:276-364 | In every state of every run that does not overlook the MAC, even with stale goroutines: a connected station is retained as connected and not queued, a disconnected one is retained as not connected or queued, an untracked MAC is never queued. |
| Agreement.AgreementExactly | internal/presence/daemon.go:214-237 | For each MAC, agreement holds throughout a run iff no configuration of the run starts to track it with a repeated entry while the broker says otherwise than not_connected. |
| Agreement.AgreementStep | internal/presence/daemon.go:216-237 | One step from an agreeing state keeps agreement iff it is not such a configuration. |
| Agreement.BrokerTellsTheTruth | internal/presence/daemon.go:276-364 | With an empty queue, in such a run, the retained state of every tracked station is its connection state. |
| Draining.BrokerComesToTheTruth | internal/presence/debounce.go:48-71 | Every run of the daemon that overlooks nobody, once time has reached the last deadline, goes on by timer steps alone, at most two an entry, to a state with nothing queued and the stations as they were, in which the broker retains the connection state of every tracked one. |
| Agreement.RepeatedDeviceIsOverlooked | internal/presence/daemon.go:222-232 | The failing input: a first configuration with one device twice leaves it tracked, disconnected, unannounced and unqueued, and with discovery on unregistered. |
| Agreement.AttributesTellWhere | internal/presence/daemon.go:413-433 | In every state of every run, the retained attributes of a connected station say that it is connected and name the access point it is on. |
| Agreement.LateCallback | internal/presence/daemon.go:461-467 | A callback that starts apart from its goroutine's section keeps agreement iff it does not find the station connected. |
| Agreement.RunsInTwo | internal/presence/debounce.go:55-70 | The goroutine's step is its section under the mutex followed by its callback. |
| Agreement.ConnectWithinTheStep | internal/presence/daemon.go:384-411 | A connect between these two halves ends with a connected station, not_connected retained and nothing queued, from any agreeing state with a goroutine on its way. |
| Agreement.AlwaysSettled | internal/presence/daemon.go:399-401 | In every reachable state, whatever configurations repeat, an entry is queued only for a tracked, disconnected station. |
| Agreement.Discovery | internal/presence/daemon.go:283-303 | From a start without discovery messages, with autodiscovery and no configuration that hides a name of the MAC: it has a retained discovery message iff it is tracked, and that carries its current name. |
| Agreement.DiscoveryExactly | internal/presence/daemon.go:276-303 | For each MAC this holds throughout a run iff no configuration ends by repeating a name that it has just introduced for it. |
| Agreement.DiscoveryStep | internal/presence/daemon.go:222-232 | The same iff for one step. |
| Agreement.SingleNamesAreSeen | internal/presence/daemon.go:216-237 | A run whose configurations name each MAC at most once overlooks no station and hides no name. |
| Agreement.SilentWithoutDiscovery | internal/presence/daemon.go:284-359 | With discovery off no run publishes anything on a discovery topic. |
| OneStation.Independence | internal/presence/daemon.go:208-502 | Every run of the daemon, seen at any MAC (station, queue entry and timers, three topics), is a run of that MAC's own machine. |
| OneStation.OthersDoNotMatter | internal/presence/daemon.go:208-502 | The daemon, seen at a MAC, is where that machine gets to by the steps that mention the MAC alone. |
| OneStation.StepAt | internal/presence/daemon.go:372-502 | The same for one step, including that the step is possible for the one station. |
| OneStation.ConfigureAt | internal/presence/daemon.go:253-273 | A configuration acts on each MAC by the names it gives it and its own place in the listing; asking only when there are updates is enough, since added MACs are updates. |
| OneStation.ApplyAllAt | internal/presence/daemon.go:276-364 | Whatever the order of the changes, each MAC gets its own change, once, and others none. |
| OneStation.DiffAllAt | internal/presence/daemon.go:216-237 | Although the first loop writes the map it compares with, what it finds for a MAC depends on that MAC's occurrences alone. |
| OneStation.ConnectAt | internal/presence/daemon.go:384-433 | A connect changes nothing of any other MAC, and its own by the one-station machine. |
| OneStation.DisconnectAt | internal/presence/daemon.go:441-495 | The same of a disconnect. |
| OneStation.RunTimerAt | internal/presence/daemon.go:461-495 | The same of a timer's goroutine. |
| Reconcile.OrderDoesNotMatter | internal/presence/daemon.go:275-367 | For any two orders of iteration over the changes a configuration ends in the same stations, queue and timers, and in the same messages on every topic. |
| Reconcile.DifferenceIsCorrect | internal/presence/daemon.go:214-245 | For distinct MACs: added are those the stations lack, removed those the configuration lacks, updated those whose names differ; kept stations change in their names only. |
| Reconcile.StationsAfterConfigure | internal/presence/daemon.go:276-364 | Whatever a configuration repeats, afterwards exactly its MACs are tracked; a kept station keeps connection, times, entry and published state; a new one named once is connected, since when and where, as listed, and announced so; a new one named again is not connected and nothing is said of it. |
| Reconcile.AnnouncedAsListedExactly | internal/presence/daemon.go:216-237 | A newly tracked station is connected as listed and the broker says so iff it is named once, or it is not listed and the broker says already that it is not home. |
| Reconcile.RepeatedDeviceIsNotLookedUp | internal/presence/daemon.go:216-237 | The failing input: a new device named twice stays not connected although an access point lists it; where the broker says so already, agreement holds. |
| Reconcile.RemovedAfterConfigure | internal/presence/daemon.go:352-363 | A station that a configuration drops loses its entry, and its discovery topic is cleared iff discovery is on; nothing else is published of it, and other MACs are left alone. |
| Reconcile.AgainDoesNothing | internal/presence/daemon.go:222-232 | Applying a configuration again, at any time and with any listing, changes and publishes nothing iff autodiscovery is off or no device is named differently by its last two occurrences. |
| Reconcile.ListedAgain | internal/presence/daemon.go:222-232 | The same iff for one station. |
| Reconcile.TwoNamesAreRegisteredAgain | internal/presence/daemon.go:222-232 | The failing input: one device under two names is registered anew whenever the configuration is applied. |
| Traces.NotHomeHasItsDisconnect | internal/presence/daemon.go:441-467 | For every run: between saying connected for a MAC and next saying not_connected, without a removal between, there is a disconnect of it from the very access point it was connected on. |
| Traces.SecondHomeHasItsCause | internal/presence/daemon.go:383-411 | For every run: two connected messages in a row, without a removal between, are separated by such a disconnect, or the second is a connect to another access point. |
| Traces.TimerHasItsDisconnect | internal/presence/daemon.go:461-467 | For every run, with whatever timers: a not_connected said by a timer has a disconnect that made the queue entry, and since then neither a connect nor a removal of the MAC. |
| Traces.HomeStep | internal/presence/daemon.go:383-405 | A station that is home stays so, silently, through every step but a connect elsewhere, a disconnect from there or a removal; in particular through late disconnects from other access points. |
| Traces.RoamingSafety | internal/presence/daemon.go:441-453 | The first of these trace properties for one station. |
| Traces.SecondHomeHasCause | internal/presence/daemon.go:383-411 | The second for one station. |
| Traces.TimerSpeaksForADisconnect | internal/presence/debounce.go:44-71 | The third for one station: the entry that let the timer speak comes from an accepted disconnect and has waited since, without a connect or removal. |
| Traces.TimerPublishesAttributes | internal/presence/daemon.go:461-495 | For every run: a goroutine that finds its MAC queued publishes not_connected and exactly one set of attributes, which says so too, with the name and address of the station, the access point of the disconnect that made this very timer, and the time of the latest disconnect. |
| Traces.AttributesAwayUntilHome | internal/presence/daemon.go:469-494 | For every run: from then on the retained attributes say not connected until the station is announced as home. |
| Traces.TimerPublishesBoth | internal/presence/daemon.go:461-495 | The publications of that step for one station. |
| Traces.AttributesHaveTheirEvents | internal/presence/daemon.go:413-494 | For every run: attributes are published only next to the state they confirm, with the station's address and current name; those of a station at home give access point and time of the connect or listing behind them, the others the access point of an earlier disconnect and the time of the latest. |
| Traces.AttributesHaveTheirCause | internal/presence/daemon.go:413-494 | The same for one station. |
| Traces.QueuedKeepsLatestDisconnect | internal/presence/daemon.go:451-453 | For every run: while a callback is queued for a MAC, its station keeps the time of the latest disconnect, even where the deadline is counted from an earlier one. |
| Traces.LastLeaving | internal/presence/daemon.go:451-453 | The same for one station. |
| Presence.NextOk | internal/presence/daemon.go:77-99 | Every step keeps the invariant of the data: no orphaned queue entry, every queued callback is an announcement, every station is stored under its own address. |
| Presence.PlanFacts | internal/presence/daemon.go:238-245 | After the two loops exactly the configured MACs are in the stations, the changes cover old and new MACs, those removed are those gone, and an added MAC counts as an update. |
| Presence.HasUpdatesExactly | internal/presence/daemon.go:215-232 | The access points are asked for their stations iff some device is not tracked, or under another name. |
| Presence.ConnectBringsHome | internal/presence/daemon.go:377-411 | A connect leaves a tracked station connected on that access point since now, with nothing queued, and connected retained unless it was connected there before; an untracked one changes nothing. |
| Presence.DisconnectSendsAway | internal/presence/daemon.go:435-461 | A disconnect from where the station is, or of one that is not connected, leaves it not connected since now and queued, a new entry for the debounce time from now, and publishes nothing; any other changes nothing. |
| Daemon.Daemon.constructor | internal/presence/daemon.go:102-136 | A new daemon tracks nothing and has nothing queued. |
| Daemon.Daemon.OnConnect | internal/presence/daemon.go:377-433 | A connect event takes stations, queue and broker to those of the state machine; stations and queue even when a publication fails, and it fails iff one is refused. |
| Daemon.Daemon.PublishHome | internal/presence/daemon.go:407-433 | Connected, then the attributes; an error iff an attempt is refused. |
| Daemon.Daemon.OnDisconnect | internal/presence/daemon.go:441-495 | A disconnect event takes the state to that of the state machine and publishes nothing. |
| Daemon.Daemon.OnHostapdEvent | internal/presence/daemon.go:372-502 | Without an error a connect event brings its station home and a disconnect event sends it away, in the sense of the two rows above; an address that does not decode is an error and changes nothing; other events do nothing. |
| Daemon.AnnouncementsTakeEffect | internal/hostapd/event.go:39-66 | The same from the text of the message on, with or without a priority, for every address. |
| Daemon.Daemon.OnTimer | internal/presence/daemon.go:461-495 | A goroutine's section and callback take the state to that of the state machine; the station is looked up after the first publication. |
| Daemon.Daemon.OnConfigChange | internal/presence/daemon.go:208-370 | Without an error the configuration was acceptable and the new state is the state machine's, for the order of iteration reported; it fails for a bad address iff one does not decode, for the listing iff some device is new and the first access point of no use fails otherwise than by lacking the command, for publishing iff an attempt is refused. |
| Daemon.Daemon.DiffDevices | internal/presence/daemon.go:214-237 | The first loop finds the specified difference, while it updates the stations. |
| Daemon.Daemon.DropStations | internal/presence/daemon.go:238-245 | The second loop drops exactly the stations that no device named, and marks them removed, in whatever order. |
| Daemon.Daemon.ProcessChanges | internal/presence/daemon.go:275-370 | The third loop applies every change once, in the order it reports. |
| Daemon.Daemon.ProcessChange | internal/presence/daemon.go:276-364 | One iteration of it, with its errors. |
| Daemon.Daemon.AnnounceAdded | internal/presence/daemon.go:305-350 | An added station is connected as listed, its callback dropped if so, and announced. |
| Daemon.Daemon.Unregister | internal/presence/daemon.go:352-363 | A removed station's callback is dropped and its discovery topic cleared. |
| Daemon.Daemon.RegisterDeviceTracker | internal/hass/mqtt.go:165-209 | A discovery message with name and address; a blank name is an error without an attempt. |
| Daemon.ConnectedStations | internal/presence/daemon.go:504-529 | The nested loops compute the specified listing; there is one iff every access point answers with addresses for its associated stations, and otherwise the first that does not decides whether the command is lacking or it is an error. |
| Daemon.FirstUnusableDecides | internal/presence/daemon.go:263-271 | The same of the specified listing. |
| Daemon.TheLastListingCounts | internal/presence/daemon.go:506-529 | When every access point answers, a MAC counts as connected iff some list has it as associated, and the last to list it decides where. |
| Listings.AnnouncedAsPolled | internal/presence/daemon.go:258-350 | When every access point is of use, a MAC that a configuration starts to track and names once is connected, and announced so, iff one of them lists it as associated. |
| Listings.PlacedAsPolled | internal/presence/daemon.go:322-325 | And then it is connected where the last one to list it is, since as long as that one says. |
| Listings.AnnouncedWithoutListing | internal/presence/daemon.go:263-271 | When the first access point that is of no use lacks the command, it is announced as not connected. |
| Listings.AnnouncedAsServed | internal/presence/daemon.go:258-350 | From the lists that the repository's hostapd serves, with valid and distinct addresses, through the walks to the broker: connected, and announced so, iff some list has it as associated. |
| Listings.PlacedAsServed | internal/presence/daemon.go:322-325 | And then at the last access point whose list does, since now, as these replies give no time. |
| Listings.AnnouncedAsPrinted | internal/hostapd/station.go:54-92 | From what a full hostapd prints for its stations, in any order of lines, through the walks and the parser to the broker: connected, and announced so, iff one of them prints it as associated. |
| Listings.PlacedAsPrinted | internal/hostapd/station.go:74-79 | And then at the last one to do so, since 1_000_000_000 nanoseconds times the seconds it prints last, or since now if it prints none. |
| Listings.AnnouncedAsServedExactly | internal/presence/daemon.go:216-350 | Whatever the configuration repeats, this holds of a newly tracked MAC iff it is named once, or no list has it as associated and the broker says already that it is not home. |
| Listings.CollectedAll | internal/presence/daemon.go:504-529 | A listing has exactly the associated MACs, each at its last place at the last access point to list it. |
| Broker.MQTT.Publish | internal/hass/mqtt.go:230-244 | A publication is one more message at the broker, or none if refused; the store by topic string and the per-device view by topic stay in step. |
| Broker.Push | internal/hass/mqtt.go:230-244 | A message reaches its own topic and no other. |
| Debounce.Debouncer.constructor | internal/presence/debounce.go:10-15 | A new debouncer is empty. |
| Debounce.Debouncer.CancelCallback | internal/presence/debounce.go:26-38 | The entry is dropped; the answer tells whether its timer was stopped in time; no other MAC is touched. |
| Debounce.Debouncer.EnqueueCallback | internal/presence/debounce.go:44-72 | An entry with a timer armed for the debounce time from now, unless the MAC has one; then nothing changes. |
| Debounce.Debouncer.ExpireTimer | internal/presence/debounce.go:54-55 | The runtime expires a due timer and leaves the queue alone. |
| Debounce.Debouncer.TimerFunc | internal/presence/debounce.go:55-65 | The goroutine takes whatever entry its MAC has, or finds none and ends. |
| Debounce.Debouncer.StartCallback | internal/presence/debounce.go:67-69 | The goroutine calls the callback of its own timer. |
| Debounce.CancelSlots | internal/presence/debounce.go:26-38 | Cancelling is an operation of its MAC alone and orphans no entry; the MAC's entry goes, and the answer is true iff there was one whose timer was still armed, which is now stopped. |
| Debounce.EnqueueSlots | internal/presence/debounce.go:44-72 | Enqueueing is an operation of its MAC alone and orphans no entry; it is accepted iff the MAC has none, and then makes an armed timer with that deadline and callback, and otherwise changes nothing. |
| Debounce.TakeSlots | internal/presence/debounce.go:55-65 | A goroutine's section is an operation of its MAC alone and orphans no entry, even when it takes another timer's; it takes one iff there is one, and none is left. |
| DebounceRuns.Conservation | internal/presence/debounce.go:26-72 | In every interleaving, for each MAC: accepted enqueues are callbacks started, callbacks about to start, entries removed by cancel, and the entry queued now. |
| DebounceRuns.RunOfOneMAC | internal/presence/debounce.go:17-23 | Every run of the debouncer, seen at one MAC, is a run of that MAC alone. |
| DebounceRuns.QueueStaysOk | internal/presence/debounce.go:48-71 | In every reachable state the timer of every queued entry is armed or has its goroutine on its way. |
| DebounceRuns.TimerLife | internal/presence/debounce.go:55-70 | Over any stretch of a run a timer keeps deadline and callback, and its phase only moves on. |
| DebounceRuns.CallbackRunsOnce | internal/presence/debounce.go:64-69 | No callback starts twice. |
| DebounceRuns.NeverEarly | internal/presence/debounce.go:54-55 | A callback starts no sooner than the debounce time after the accepted enqueue that brought it. |
| DebounceRuns.CancelledNeverRuns | internal/presence/debounce.go:30-37 | After a cancel that returned true, the callback it dropped never starts in any continuation. |
| DebounceRuns.TimerStepsAreBounded | internal/presence/debounce.go:48-71 | Without further accepted enqueues the timers take only so many steps. |
| DebounceRuns.QueueDrains | internal/presence/debounce.go:48-71 | As long as a timer pends one of these steps is possible once due, and when none pends nothing is queued. |
| DebounceRuns.QueueEndsEmpty | internal/presence/debounce.go:48-71 | For one MAC: every run, once the last deadline has passed, goes on by at most as many timer steps as its timers have pending to a state in which no timer step is left and nothing is queued. |
| DebounceRuns.EveryEndIsEmpty | internal/presence/debounce.go:48-71 | Whichever way the timers go without accepted enqueues: no more steps than that, and where none is left nothing is queued. |
| DebounceRuns.StaleGoroutineTakesNewerEntry | internal/presence/debounce.go:55-64 | A concrete run in which an entry is consumed before its time by another timer's goroutine. |
| DebounceRuns.AnyGoroutineMayTakeIt | internal/presence/debounce.go:58-64 | Every run that ends in an enqueue accepted while a goroutine of the MAC is on its way can go on, at the same time, by that goroutine, which takes the new entry before its deadline; the own timer of the entry stays armed. |
| DebounceRuns.OnlyOwnEntry | internal/presence/debounce.go:55-64 | In every state of a run the only live timer beside an entry is its own, and without an entry none is armed, iff every accepted enqueue of the run finds no goroutine on its way. |
| DebounceRuns.TakesItsOwnInTime | internal/presence/debounce.go:55-64 | In such a run a goroutine that takes an entry takes its own, and not before its deadline. |
| Locks.NeverDeadlocked | internal/presence/daemon.go:208-210 | For any number of handlers, started at any time and interleaved in any way: in every reachable state in which a thread is unfinished, some thread can step. |
| Locks.AlwaysSound | internal/presence/daemon.go:384-399 | In every reachable state no mutex has two holders, and every thread keeps to the one order of taking them. |
| Locks.QueueMutexIsLeaf | internal/presence/debounce.go:55-65 | In every reachable state a thread that holds the debouncer's mutex waits for nothing, and is alone in holding it. |
| Locks.HandlersAreDisciplined | internal/presence/daemon.go:384-399 | Every handler, on every path, takes the mutexes in the one order and gives them up. |
| Locks.StepKeepsSound | internal/presence/daemon.go:441-471 | Every step of every thread keeps mutual exclusion and discipline. |
| Locks.AllHandlersFinish | internal/presence/daemon.go:327-353 | From every reachable state, under any scheduler that picks threads that can step, all threads finish and hold nothing. |
| Mac.DecodeText | internal/presence/mac.go:15-34 | Decoding undoes printing, for every address. |
| Mac.JSONRoundTrip | internal/presence/mac.go:36-52 | The JSON pair round-trips, for every address. |
| Mac.DecodeOfPattern | internal/hostapd/mac.go:7-15 | Every text that matches hostapd's pattern decodes, to the values of its digit pairs. |
| Mac.TextOfDecoded | internal/presence/mac.go:13-34 | Printing what such a text decodes to gives it back in upper case. |
| Mac.DecodeExactly | internal/presence/mac.go:20-34 | A text is accepted iff it is twelve digits once its first five colons are gone, wherever these are. |
| Mac.DecodedIsSixBytes | internal/presence/mac.go:27-29 | So it has at most five colons and exactly twelve other characters; one of seven bytes is refused. |
| Mac.UnmarshalExactly | internal/presence/mac.go:42-52 | JSON text is read between its first and last character, whatever these are, and refused if there are not two. |
| Topics.RenderInjective | internal/hass/topics.go:26-60 | Whatever the prefixes and the name of the access point: state, attribute and discovery topics are injective in the MAC, and never meet each other. |
| Topics.TopicTexts | internal/hass/topics.go:26-46 | The three topics read as documented. |
| Topics.SanitizedByCharacter | internal/hass/topics.go:52-56 | Of a name, letters, digits, underscores and hyphens stay, in lower case and in order, and nothing else. |
| Topics.SanitizedIsSafe | internal/hass/topics.go:52-56 | So the result is safe in a topic, and a name that is safe in lower case is itself. |
| Topics.SanitizedAddress | internal/hass/topics.go:58-60 | An address in a topic has its digits in lower case and hyphens for colons. |
| Ssid.RoundTrip | internal/hostapd/status.go:72-128 | The decoder undoes hostapd's printf_encode, for every string of bytes. |
| Ssid.DecodeSSID | internal/hostapd/status.go:76-128 | The loop over reader and builder computes the recursive decoder. |
| Ssid.DistributesExactlyAtBoundaries | internal/hostapd/status.go:89-124 | Text that decodes does so independently of everything that may follow iff it ends where an escape ends. |
| Ssid.BareHexIsNothing | internal/hostapd/status.go:117-120 | A hexadecimal escape without digits at the end of any text that ends at a boundary is accepted, and adds nothing. |
| Ssid.OnlyBareHexIsUnfinished | internal/hostapd/status.go:117-120 | Text that decodes ends inside an escape iff it ends with such an escape, begun at a boundary. |
| Ssid.RefusedExactly | internal/hostapd/status.go:95-120 | Text is refused iff at some escape boundary it has a backslash at its end, or a hexadecimal escape with one digit or a character that is none. |
| Ssid.EscapesDecode | internal/hostapd/status.go:104-124 | What each escape stands for; unknown ones stand for themselves. |
| Ssid.PlainTextIsItself | internal/hostapd/status.go:89-93 | Text without a backslash decodes to itself. |
| Ssid.NeverLonger | internal/hostapd/status.go:81-127 | Decoding never yields more bytes than it reads. |
| Replies.ParseStatus | internal/hostapd/status.go:28-70 | The loop over lines computes the specified fields, or the error. |
| Replies.StatusRoundTrip | internal/hostapd/hostapdtest/handler.go:195-203 | Parsing an encoded status gives back all five fields, for every SSID escaped as hostapd escapes it, every 64-bit number and all texts that fit in a line. |
| Replies.StatusOfEncoded | internal/hostapd/hostapdtest/handler.go:195-203 | With whatever is written for the SSID, parsing gives back the other four fields and what it decodes to, or fails iff it does not decode. |
| Replies.ParseStation | internal/hostapd/station.go:26-96 | The loop with its line counter computes the specified fields, or the error. |
| Replies.PrintedRoundTrip | internal/hostapd/station.go:39-93 | For every address and all lines a hostapd may print, in any order and number: every field is what its last line says (bytes, signal, whether the flags contain [ASSOC], durations in nanoseconds as 1_000_000_000 times the seconds and 1_000_000 times the milliseconds), or zero if there is none; other keys are skipped. |
| Replies.StationAcceptedExactly | internal/hostapd/station.go:42-91 | A reply is accepted iff its first line is an address and each further one is a pair, with a 64-bit number where one is due. |
| Replies.StatusAcceptedExactly | internal/hostapd/status.go:37-66 | A status is accepted iff each of its lines is. |
| Replies.StatusLineExactly | internal/hostapd/status.go:40-66 | A status line is accepted iff it is a pair, with a number or an SSID that decodes where one is due; other keys are skipped. |
| Replies.StationRoundTrip | internal/hostapd/hostapdtest/handler.go:212-220 | Parsing an encoded station gives back address, association and signal, for every valid address and 64-bit number. |
| Scan.AtoiOfItoa | internal/hostapd/station.go:88-91 | Decimal parsing undoes printing, for every 64-bit number. |
| Scan.AtoiExactly | internal/hostapd/station.go:65-91 | A number is an optional sign and digits, of a value of 64 bits; anything else is refused. |
| Scan.CutExactly | internal/hostapd/station.go:54-58 | A line is a pair iff it has an equals sign, and is split at the first. |
| Scan.ScanReturnedLine | internal/hostapd/station.go:39-41 | A carriage return before the newline is no part of the line. |
| Scan.TrimSpaceSplits | internal/hostapd/ctrl.go:206-206 | Trimming takes all white space off both ends, and nothing else. |
| Control.Cmd | internal/hostapd/ctrl.go:70-99 | One command is one datagram out and one in; a failed read and an unknown-command reply are errors. |
| Control.StationCmd | internal/hostapd/ctrl.go:122-154 | A station, none, or an error, from one reply. |
| Control.StatusCmd | internal/hostapd/ctrl.go:112-118 | The status of one reply. |
| Control.StatusArrives | internal/hostapd/ctrl.go:41-56 | A status that fits in the buffer, with its SSID escaped, arrives as it was sent. |
| Control.StatusFailsExactly | internal/hostapd/ctrl.go:89-118 | It fails iff nothing comes, or the reply that the command is unknown, or one that is no status. |
| Control.LongDataIsCut | internal/hostapd/ctrl.go:48-48 | A longer datagram is cut off at 4096 bytes. |
| Control.EncodedFits | internal/hostapd/hostapdtest/handler.go:212-220 | Every encoded station fits in the buffer and does not look like an unknown-command reply. |
| Control.Stations | internal/hostapd/client.go:68-92 | The loop returns the specified walk and sends the commands of it. |
| Control.WalkIsTheList | internal/hostapd/hostapdtest/handler.go:25-47 | Against a fixed list of valid, distinct addresses the handler's replies to the walk's commands are the list, in order, then an empty one, and the walk returns exactly the list. |
| Control.WalkReplies | internal/hostapd/client.go:80-91 | Replies that are read as stations, then an empty reply, a failed read or an unknown command: the walk returns these stations in order without an error. |
| Control.BadReplyFailsTheWalk | internal/hostapd/client.go:85-87 | A reply that does not parse makes the whole walk fail, however many came before. |
| Control.FirstCommandFails | internal/hostapd/client.go:71-77 | A STA-FIRST that is not answered, not known or answered badly is an error; an empty answer is an empty list. |
| Control.WalkEncoded | internal/hostapd/client.go:80-91 | Replies for a list, then an empty reply, a failed read or an unknown command: the walk returns that list without an error; after a failure this is a prefix of the list. |
| Control.NothingWalked | internal/hostapd/client.go:80-84 | The walk ends without another station and without an error iff the next reply is one of these. |
| Control.VisitsAreReplies | internal/hostapd/hostapdtest/handler.go:29-45 | The handler's k-th reply to the walk's commands, each made from the reply before, is the station that going from address to address visits, or empty past the end. |
| Control.WalkGoesOn | internal/hostapd/client.go:80-91 | As long as these replies are stations, the walk reads all of them and sends one command more. |
| Control.WalkEndsExactlyWithoutRepetition | internal/hostapd/hostapdtest/handler.go:35-45 | For a list of valid addresses the conversation of client and handler comes to an empty reply iff no address occurs twice. |
| Control.RepetitionIsWalkedForEver | internal/hostapd/client.go:80-91 | With a repeated address no reply is ever empty: for every n the walk over the first n replies sends n + 1 commands. |
| Control.ServedIsTheList | internal/hostapd/hostapdtest/handler.go:25-47 | Without one, the conversation is the encoded list and one empty reply. |
| Events.EventAddressesDecode | internal/hostapd/event.go:26-74 | Every connect or disconnect event that the parser lets through has an address that the daemon can decode. |
| Events.AnnouncementsAreRecognised | internal/hostapd/event.go:39-66 | For every address, with or without a priority in front, both announcements are recognised; on a connect, data after the address is ignored. |
| Events.KindOfMessage | internal/hostapd/event.go:39-73 | By its text without a priority, a message is the end of hostapd iff it is exactly that text, and unrecognized iff it is neither that nor begins as an announcement. |
| Events.TerminatingIsRecognised | internal/hostapd/event.go:68-69 | CTRL-EVENT-TERMINATING is recognised with and without a priority. |
| Events.DisconnectWithDataIsRefused | internal/hostapd/event.go:62-65 | On a disconnect, unlike a connect, data after the address is refused. |
| Events.BadAddressIsRefused | internal/hostapd/event.go:27-65 | An announcement of 17 characters that are no address is refused, and an empty message. |
| Attach.Loop | internal/hostapd/ctrl.go:199-231 | In every interleaving of reader and canceller the loop's callbacks and outcome are a fold over what happens. |
| Attach.Run | internal/hostapd/ctrl.go:160-198 | DETACH is attempted at most once, and exactly once when an attach that succeeded has returned. |
| Attach.Detacher.Begin | internal/hostapd/ctrl.go:246-262 | Only the first call sends the command. |
| Attach.CleanExactlyAfterDetach | internal/hostapd/ctrl.go:208-217 | Attach returns without an error iff the first thing to stop it is an OK read after the canceller's detach had completed. |
| Attach.CallsUpToTheStop | internal/hostapd/ctrl.go:199-231 | The callbacks are exactly the parsed events of the messages before the first thing that stops the loop, in order, and last the event whose callback failed if that is what stops it. |
| Attach.CallsAreTheMessages | internal/hostapd/ctrl.go:219-231 | As long as nothing has stopped the loop, its callbacks are the events of the messages so far, each once and in order, and it goes on as if it started there. |
| Attach.OutcomeOfTheStop | internal/hostapd/ctrl.go:199-231 | What stops the loop decides its outcome: ErrTerminating iff it is a message of exactly that text, a refused message iff one does not parse, and likewise a failed read, an OK after or before the detach, and an event whose callback failed. |
| Attach.OthersArePassedOn | internal/hostapd/ctrl.go:219-230 | A message that the program does not know goes to the callback as it came and stops nothing. |
| Attach.CancellingDropsNothing | internal/hostapd/ctrl.go:184-189 | For the same reads, the moment of cancelling changes no callback, and no outcome but that of an OK. |
| Attach.EarlyOKIsAnError | internal/hostapd/ctrl.go:255-267 | A cancelled attach that reads its OK before the detach has completed ends with an error. |

## Left out

- Daemon.Daemon.OnConfigChange: after an error only the validity of the state is stated, as an error ends the run; likewise for the other handlers that publish.
- Daemon.Daemon.OnTimer: goroutine's section and callback are one step of the state machine; that the daemon's guarantees need this is `ConnectWithinTheStep`.
- Broker.MQTT.Publish: a refused attempt is taken not to have reached the broker; a message that arrives although its acknowledgement does not is not modelled.
- Lists with addresses that are not valid: the walk ends on them with an error, and no theorem follows that from the list to a configuration.
- Debounce.Debouncer.EnqueueCallback: timers are positions in a list for each MAC instead of pointers; a nil callback is `NoCallback`.
- Attach.CancellingDropsNothing: what the DETACH command and the read deadline change in the later reads is up to the server and the clock.
- Control.Cmd: writing always succeeds, and deadlines are failed reads.
- Attach.Loop: the buffer that each read fills is not modelled here; a message is what was read.
- Replies.ParseStatus: a line may be of any length; the scanner's own limit of 64 KB cannot be reached with a 4096-byte reply.
- Time within one handler: the clock is read once a step.
- The wall-clock fields `ConnectedFor` and `DisconnectedFor`, and the parts of attributes and discovery messages that do not depend on the station (names of the access point, icon, vendor, identifiers).
- Agreement of attributes with the state of a disconnected station: adding one publishes no attributes.
- The online and offline status topic, and the will.
- Paho, quality of service, tokens, TLS and lost connections: a publication is an attempt that succeeds or not.
- Unix sockets, their files and paths, and the PING and ATTACH replies that are compared with PONG and OK.
- The command line, signals, socket discovery and the wiring of the goroutines in an error group.
- The vendor table, logging and help texts.
- General JSON and regular expressions: addresses, topics and numbers have direct definitions.
- White space and letter case outside ASCII.
- Registering callbacks with the repository's hostapd (the `On` methods of its handler), and its options other than a fixed list.
- Go's order of operands in `return s, ok, c.cmd(...)`: the command is taken to come first, as the code intends.
- Entities whose fields the program assigns once per value (`Station`, `Status`, `MAC`) are values; `Decode` returns an option instead of writing its receiver.
