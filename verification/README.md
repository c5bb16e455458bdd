# netbrother in Dafny

netbrother watches the TCP connections of a host. A capturer compares snapshots of the kernel's socket
tables, or listens to kernel probes, and emits New and Close events; a detector looks for beacons,
connections that one process opens to one endpoint at regular intervals; a terminal display mirrors the
connections and logs the alerts. This project models these stages and proves what they guarantee over
whole runs. The network protocol of the snapshots is that of netlink (message header: section 2.3.2 of
RFC 3549).

## How it is built

What the program keeps in objects and changes step by step is a class here, with loops and updates in
place: `Detector.PeriodicDetector` (a map of slices over shared backing arrays, compacted in place),
`Capturer.PollingCapturer` (the netlink and the `/proc` backend), `Ebpf.EbpfCapturer`, `Tui.Display`.
Each method is proved against functions, and the guarantees are lemmas about runs of these functions:

- `Types`: connections, keys, events. `Text` stands for what `net.IP.String` distinguishes.
- `RealAlgebra`, `BeaconStats`: the statistics of the CV test, on exact reals.
- `Beacon`, `BeaconRuns`, `Detector`: one event, whole logs and streams, and the imperative detector.
- `Scan`, `Capturer`: snapshot reconciliation, the event protocol, the inode-to-PID cache, the poll loop.
- `Mirror`, `AlertLog`, `Tui`: list, log and scrolling as functions of the event history, and the display.
- `Strconv`, `ProcNet`: the text of `/proc/net/tcp`, printed and read back.
- `Netlink`, `NetlinkDump`: the datagram walk, its encoder, and the receive loop.
- `Sockets`: connections from what a backend read, and the agreement of the two polling backends.
- `EbpfIndex`, `Ebpf`: the two maps as a state machine, the sample decoder, and the capturer.
- `Pipeline`: the stages put together.

A `range` over a Go map is a loop that picks any remaining key. A locked section is one step. Timestamps
are real seconds; what `time.Now` or the kernel returns is a parameter. `NewParams` puts the statistical
test into the detector's settings as a function, so that window, cooldown and independence of keys are
proved for any test and the statistics only where they matter; in the same way `PollingCapturer` holds the
function that reads an address column of the table, which its constructor sets to `ProcNet.HexAddress`.
What the detectors beside the periodic one raise on an event is arbitrary.

## What the proofs found

- A connection first seen in TIME_WAIT while TIME_WAIT is not shown loses the alerts attached to its event:
  `handleEvent` returns before the alert loop (internal/display/tui.go:330-332). The log is the newest 100
  alerts of the events that were not skipped; `AlertLog.LogMirrorsDeliveriesIff` gives the exact condition
  over a run, `NoteAppendsIff` that of one event, `HiddenAlertIsLost` an input.
- The walk over a datagram skips a message's padding without checking that it is there
  (internal/capture/capture_netlink.go:348-349). `NetlinkDump.PanicPossibleIff` and `PanicsIff` say exactly
  when this is out of range. The parameter `expectType` is not used, and the `break` for a short socket
  message leaves the switch only, so that the message is passed over.
- In `rawToConnection` the second test, for an unspecified address, never decides: such an address is
  neither loopback nor private and is already Outbound (`Sockets.DirectionKnownIff`).
- `known` keeps the connection first seen under a key; later states of the socket do not reach it
  (`Scan.ScanKnowsSnapshot`).
- The comments of `HexToIP` speak of big-endian and network order; the code takes the lowest byte first,
  which is right for the number a little-endian kernel prints (`ProcNet.HexToIPNamesBytes`).
- The eBPF index is always sound but not complete: a connection opened under an inode that another known
  connection has hides one of the two from its close (`EbpfIndex.RunIsCompleteIff`, `ReusedInodeIsMissed`,
  `OwnerChangeIsMissed`), and no resync indexes it again (`RunNeverIndexesMissed`, and the last clause of
  `Ebpf.EbpfCapturer.SyncProc`). New events of samples may repeat a known key (`Ebpf.NewIsInOrderIff`).

## Model

| member | source | states |
|---|---|---|
| `Beacon.NewParams` | internal/detect/periodic.go:28-50 | positive settings are taken as they are; others fall back to 300 s, 3 samples and a CV of 0.25; the cooldown is 60 s |
| `Detector.PeriodicDetector.constructor` | internal/detect/periodic.go:28-50 | a new detector holds nothing and has the settings of `NewParams` |
| `Detector.PeriodicDetector.Reset` | internal/detect/periodic.go:52-57 | after a reset no key has a window or an alert |
| `Detector.CompactInPlace` | internal/detect/periodic.go:135-146 | overwriting the slice that is being ranged over leaves exactly the elements after the cutoff, in order, at its front |
| `Detector.Append` | internal/detect/periodic.go:77 | append on a slice with spare capacity or without: the slice holds the old elements and the new one |
| `Detector.PeriodicDetector.SliceOf` | internal/detect/periodic.go:77 | the slice that append starts from, nil for a new key; no other key shares its array |
| `Detector.PeriodicDetector.Store` | internal/detect/periodic.go:77 | a slice put in a key's place leaves every other key's slice and contents as they are |
| `Detector.PeriodicDetector.Push` | internal/detect/periodic.go:77 | one key gains the timestamp; no other key's contents change although backing arrays are written |
| `Detector.PeriodicDetector.Prune` | internal/detect/periodic.go:135-146 | one key loses what is not younger than the window; no other key changes |
| `Detector.PeriodicDetector.Record` | internal/detect/periodic.go:76-78 | append and prune together: the key's window becomes the pruned extended log, every other key is untouched |
| `Detector.CollectGaps` | internal/detect/periodic.go:92-99 | the loop collects the positive differences of neighbours, in order |
| `Detector.MeanAndVariance` | internal/detect/periodic.go:148-165 | the two accumulator loops compute the mean and the mean squared deviation |
| `Detector.PeriodicDetector.Decide` | internal/detect/periodic.go:80-114 | the verdict: too few samples, a recent alert, fewer than two gaps, a non-positive mean or too large a CV make it quiet, in that order; else it carries the statistics |
| `Detector.PeriodicDetector.Analyze` | internal/detect/periodic.go:59-133 | the imperative detector, with its maps of slices, does to its abstract state and returns exactly what `Beacon.Analyze` says |
| `BeaconStats.VarianceIsExact` | internal/detect/periodic.go:148-165 | m^2 variance = m sum(x^2) - (sum x)^2 and m mean = sum x for the two-pass computation |
| `BeaconStats.CauchySchwarz` | internal/detect/periodic.go:148-165 | (sum x)^2 <= m sum(x^2) |
| `BeaconStats.BoundedJitterIsPeriodic` | internal/detect/periodic.go:101-113 | gaps between a and b pass the CV test as soon as (b - a)^2 <= 4ab maxCV^2 (Bhatia-Davis) |
| `BeaconStats.BoundedJitterIsSharp` | internal/detect/periodic.go:101-113 | that bound is attained: for any two lengths a <= b that are whole multiples of one unit there are gaps whose squared CV is exactly (b - a)^2 / 4ab |
| `BeaconStats.Samuelson` | internal/detect/periodic.go:148-165 | every gap lies within sqrt(m - 1) standard deviations of the mean |
| `BeaconStats.SpreadOfPositives` | internal/detect/periodic.go:148-165 | m positive gaps have cv^2 <= m - 1 |
| `BeaconStats.CvTestIsScaleFree` | internal/detect/periodic.go:110-113 | the test gives the same answer when all gaps are scaled by one positive factor |
| `BeaconStats.CvTestNeedsNoRoot` | internal/detect/periodic.go:110-113 | comparing the variance with maxCV^2 mean^2 decides what stddev / mean > maxCV decides |
| `BeaconRuns.JudgedPeriodic` | internal/detect/periodic.go:91-113 | the test passes exactly on two or more positive gaps within the CV bound and reports their statistics |
| `BeaconRuns.WindowIsExact` | internal/detect/periodic.go:76-78 | with nondecreasing timestamps the stored window is, after every event, exactly the in-order part of the key's whole log that is younger than the window |
| `BeaconRuns.KeptIsSuffix` | internal/detect/periodic.go:135-146 | what pruning keeps of an ordered log is a suffix, and nothing before it is young enough |
| `BeaconRuns.GapsTelescope` | internal/detect/periodic.go:91-99 | dropping the zero gaps loses no time: the gaps sum to newest minus oldest |
| `BeaconRuns.GapsOfIncreasing` | internal/detect/periodic.go:91-99 | where time goes on from event to event, gap i is the difference of events i + 1 and i |
| `BeaconRuns.LastAlertIsLatest` | internal/detect/periodic.go:84-116 | the remembered alert time is that of the latest alert among all events so far |
| `BeaconRuns.AlertIffRecentPeriodic` | internal/detect/periodic.go:76-116 | an event is alerted if and only if the recent part of the full log passes the test and no alert is younger than the cooldown |
| `BeaconRuns.ReportedPeriod` | internal/detect/periodic.go:91-108 | m mean = newest minus oldest retained time < window, and mean < window / 2 |
| `BeaconRuns.AlertIsSound` | internal/detect/periodic.go:91-116 | every alert: at least two gaps, m mean is the retained span, mean below half the window, and each gap x has (x - mean)^2 <= (m - 1) maxCV^2 mean^2 |
| `BeaconRuns.AlertsAreSpaced` | internal/detect/periodic.go:84-89 | any two alerts of a key are at least the cooldown apart, whatever the clock does |
| `BeaconRuns.AlertRateIsBounded` | internal/detect/periodic.go:84-116 | any span of time T holds at most floor(T / cooldown) + 1 alerts of a key |
| `BeaconRuns.BeaconFollowsSchedule` | internal/detect/periodic.go:76-116 | a beacon with gaps in [a, b], (b - a)^2 <= 4ab maxCV^2 and (k - 1) b < window is alerted at exactly its events from the k-th on that come without a recent alert; k = max(minSamples, 3) |
| `BeaconRuns.BeaconIsCaught` | internal/detect/periodic.go:76-116 | its first alert comes with its k-th event, none before |
| `BeaconRuns.BeaconIsCaughtAgain` | internal/detect/periodic.go:84-116 | while it goes on, the next alert follows at least the cooldown and less than cooldown + b after the last |
| `BeaconRuns.KeysDoNotInterfere` | internal/detect/periodic.go:64-116 | in any interleaving of keys, what is held for a key is what the key's own events alone lead to |
| `BeaconRuns.AlertsAreThoseOfTheKey` | internal/detect/periodic.go:64-132 | an event of a mixed stream is alerted exactly as in its key's own log, with the same figures; closed connections never are |
| `BeaconRuns.AlertIsThatOfItsEndpoint` | internal/detect/periodic.go:64-132 | an event is alerted by the times of the New events so far with its own PID, remote address text and remote port, and by nothing else |
| `BeaconRuns.StreamAlertsAreKeyAlerts` | internal/detect/periodic.go:64-132 | the alert times of one key in a mixed stream are those of the key run alone |
| `Scan.ScanKnowsSnapshot` | internal/capture/capture_netlink.go:155-203 | after a scan exactly the keys of the snapshot are known; known ones keep the connection first seen, others hold the first with that key |
| `Scan.NewsPicks` | internal/capture/capture_netlink.go:166-175 | announced as new are exactly the snapshot's first connections of unknown keys, in snapshot order |
| `Scan.ScanEvents` | internal/capture/capture_netlink.go:155-211 | a scan's events bear its time: first a New for each of these, then a Close, once each, for every known connection whose key the snapshot lacks, with the connection as it was known |
| `Scan.ScanReplays` | internal/capture/capture_netlink.go:155-211 | replaying the scan's events, in order, on what was known yields what is known after it |
| `Scan.RunReplays` | internal/capture/capture_netlink.go:155-211 | replaying the whole trace of any run from nothing rebuilds what the capturer knows |
| `Scan.ReplayMeansAlternation` | internal/capture/capture_netlink.go:155-211 | a trace that replays alternates New, Close, New, ... for every key, each Close with the connection of its New, and a key is open after an odd number of events |
| `Scan.AlternationMeansReplay` | internal/capture/capture_netlink.go:155-211 | the converse: the protocol is exactly replayability |
| `Scan.RunKeepsProtocol` | internal/capture/capture_netlink.go:155-211 | every prefix of every run's trace keeps the protocol for every key |
| `Scan.OpenIsNewsLessCloses` | internal/capture/capture_netlink.go:155-211 | #New - #Close = number of known connections |
| `Scan.TraceIsOrdered` | internal/capture/capture_netlink.go:118-211 | if the clock does not run backwards between scans, the timestamps of the trace never decrease |
| `Capturer.EnterInodes` | internal/capture/capture_netlink.go:133-135 | the inodes of one process are entered with its pid, all else stays |
| `Capturer.LiveInodes` | internal/capture/capture_netlink.go:131-136 | the process table turned around, processes in any order: exactly the listed inodes, each with a pid that lists it |
| `Capturer.MergedOwner` | internal/capture/capture_netlink.go:137-149 | after the merge the owner of an inode is a process listing it now, else the remembered one; no inode is forgotten |
| `Capturer.CacheIsLatestOwner` | internal/capture/capture_netlink.go:137-149 | the cache that a run leaves behind (`Poll`) holds for each inode the latest owner ever seen, and only inodes that were seen |
| `Capturer.InodeZeroIsUnowned` | internal/process/proc.go:229-275 | as no process lists inode 0, it has no owner in the cache that a run leaves behind |
| `Capturer.PolledOwnerIsLatest` | internal/capture/capture_netlink.go:130-165 | in every scan of a run of polls, a connection's owner is the process that a process table last showed with its inode, in this tick or an earlier one, and 0 if none ever did |
| `Capturer.CompletedPicks` | internal/capture/capture_proc.go:70-81 | the ticks that are scanned are exactly those whose sockets could be read and, for the text backend, whose processes too, in their order |
| `Capturer.PolledKeysAreLatest` | internal/capture/capture_proc.go:104-152 | after a run of polls the known keys are those of the sockets not in state 10 of the latest tick that was scanned, under the owners of the cache |
| `Capturer.PollingCapturer.constructor` | internal/capture/capture_netlink.go:80-86 | a new capturer knows nothing |
| `Capturer.PollingCapturer.MergeLive` | internal/capture/capture_netlink.go:137-150 | the three loops: the cache becomes itself overwritten with the live entries, and the rebuilt table equals the cache |
| `Capturer.PollingCapturer.Convert` | internal/capture/capture_netlink.go:391-426 | the conversion with the per-scan name cache gives the connection that `Sockets.ToConnection` specifies |
| `Capturer.PollingCapturer.AddOne` | internal/capture/capture_netlink.go:167-175 | an unknown connection is entered and listed as new; writing its owner back leaves the cache unchanged |
| `Capturer.PollingCapturer.AddNew` | internal/capture/capture_proc.go:104-125 | the loop over the sockets: those in state LISTEN skipped, the rest absorbed; current keys and new connections are those of the snapshot (`Sockets.SnapshotPicks`); the cache does not change |
| `Capturer.PollingCapturer.DropGone` | internal/capture/capture_proc.go:139-152 | deleting while ranging, in any order: each gone connection is reported exactly once with what was known of it, and exactly the gone keys are deleted |
| `Capturer.PollingCapturer.ScanAndEmit` | internal/capture/capture_netlink.go:117-212 | a whole scan: it goes through if the sockets could be read and, for the text backend, the processes; then the known keys are exactly those of the sockets whose state is not 10, the events are those of a scan of the tick, and the cache is overwritten with what the process table shows; otherwise nothing changes and nothing is emitted |
| `Capturer.LatestKeysAreKnown` | internal/capture/capture_netlink.go:155-203 | over a run exactly the keys of the latest completed snapshot are known |
| `Capturer.PollingCapturer.Poll` | internal/capture/capture_netlink.go:99-115 | the poll loop: one scan for every tick whose reading succeeds, in order, each of that tick's snapshot, time and owners; trace, known connections and cache are those that these scans lead to, and the known keys are those of the latest one |
| `Sockets.DirectionKnownIff` | internal/capture/capture_netlink.go:407-412 | the direction is unknown exactly for an unreadable address, inbound exactly for loopback and private ones; the test for an unspecified address never decides |
| `Sockets.FormsAgree` | internal/types/types.go:90-98 | the four-byte and the sixteen-byte form of an IPv4 address have the same text and direction |
| `Sockets.SnapshotPicks` | internal/capture/capture_netlink.go:155-165 | the snapshot has one connection for each socket whose state is not 10, in their order |
| `Sockets.SnapshotHolds` | internal/capture/capture_netlink.go:155-165 | a connection is in the snapshot if and only if it is that of a socket whose state is not 10 |
| `Sockets.SnapshotKeys` | internal/capture/capture_proc.go:104-110 | the same of keys |
| `Sockets.ConnectionOfDiag` | internal/capture/capture_netlink.go:391-426 | what of a netlink record goes into the connection, field by field; owner 0 and no name if the inode has none |
| `Sockets.ConnectionOfRow` | internal/capture/capture_proc.go:163-195 | the same of a row of the table |
| `Sockets.DirectionOfQuad` | internal/capture/capture_netlink.go:407-412 | an IPv4 connection is inbound exactly from 127/8, 10/8, 172.16/12 and 192.168/16, in both forms |
| `Sockets.DirectionOfSixteen` | internal/capture/capture_netlink.go:407-412 | another sixteen-byte address is inbound exactly if it is ::1 or in fc00::/7 |
| `Types.TextsAgreeIff` | internal/types/types.go:90-98 | two addresses have one text exactly if they are the same up to the form of IPv4 addresses |
| `Types.KeysAgreeIff` | internal/types/types.go:81-98 | two connections have one key exactly if PID, ports and the texts of both addresses agree |
| `Sockets.BackendsAgree` | internal/capture/capture_proc.go:163-195 | from a socket's netlink record and its line in the table both backends build connections with the same key that differ in the form of the addresses only |
| `Sockets.ScansAgree` | internal/capture/capture_proc.go:104-152 | whatever two capturers knew before, they know the same keys after scans whose snapshots have the same keys, as `DumpAndTableAgree` gives for the two backends |
| `Sockets.DumpAndTableAgree` | internal/capture/capture_proc.go:70-125 | from the bytes of a dump and the text of a table of the same sockets, with padding, noise and junk, the snapshots have the same keys in the same order |
| `Mirror.LastNAgain` | internal/display/tui.go:333-336 | trimming after each append keeps what trimming once at the end keeps |
| `Mirror.NewGoesLast` | internal/display/tui.go:329-336 | a shown connection goes behind the others, pushing out the first if the list is full; a hidden one changes nothing |
| `Mirror.CloseTakesFirst` | internal/display/tui.go:337-351 | a close deletes the first row with its key, or with keep sets its state to 7 and its name to one that the event brings; without such a row it changes nothing |
| `Mirror.AllRowsAreOpen` | internal/display/tui.go:324-352 | without the cap, the list never shows a key twice and every row is the open connection of its key |
| `Mirror.AllRowsAreAllOpen` | internal/display/tui.go:329-333 | without the cap and with the TIME_WAIT switch left alone, the rows are exactly the open keys, less those that appeared in TIME_WAIT if these are hidden |
| `Mirror.RowsAreNewest` | internal/display/tui.go:333-336 | the capped list is a suffix of the uncapped one and has at most maxConns rows |
| `Mirror.RowsAreAllRows` | internal/display/tui.go:333-336 | while the open connections fit, the cap drops nothing |
| `Mirror.DisplayMirrorsCapturer` | internal/display/tui.go:324-352 | after every completed scan of any run, under any toggling, with keep off: at most maxConns rows, no key twice, each row is what the capturer knows under its key |
| `Mirror.DisplayShowsAllKnown` | internal/display/tui.go:324-352 | with TIME_WAIT shown and the cap never exceeded the rows have exactly the known keys |
| `Mirror.MarkClosedKeepsKeys` | internal/display/tui.go:339-345 | marking a row closed changes the first row with the key only: its state, and its name if the event brings one; no key changes |
| `Mirror.KeptRowsAreNewestShown` | internal/display/tui.go:328-352 | with keep on throughout, the keys of the rows are those of the newest maxConns connections that were shown, in order |
| `AlertLog.LogIsNewestNoted` | internal/display/tui.go:354-359 | the log is always the newest 100 alerts of the events that were not skipped, in order |
| `AlertLog.NotedIsDeliveredIff` | internal/display/tui.go:330-359 | every delivered alert is noted if and only if no skipped event carries one |
| `AlertLog.LogMirrorsDeliveriesIff` | internal/display/tui.go:324-360 | over a whole run the log is, after every event, the newest 100 alerts ever delivered, in order, if and only if no skipped event carries one (no alert being delivered twice) |
| `AlertLog.LogIsNewestDelivered` | internal/display/tui.go:354-359 | the one half also for repeated alerts: if no skipped event carries one, the log is the newest 100 ever delivered |
| `AlertLog.NoteAppendsIff` | internal/display/tui.go:330-359 | an event's handling appends its alerts, whatever the log, if and only if it is a close, TIME_WAIT is shown, its state is not 6, or it carries none |
| `AlertLog.HiddenAlertIsLost` | internal/display/tui.go:330-332 | the input that shows it: a connection first seen in TIME_WAIT, not shown, loses its alert |
| `Tui.Display.constructor` | internal/display/tui.go:81-92 | a new display is empty, at the top, without a filter, for 500 connections and 100 alerts |
| `Tui.Display.Search` | internal/display/tui.go:338-340 | the linear search finds the first row with the key |
| `Tui.Display.UpdateRows` | internal/display/tui.go:328-352 | the list after an event is that of `Mirror.Apply`: append and trim, mark closed, or delete |
| `Tui.Display.PushAlerts` | internal/display/tui.go:354-359 | alerts pushed one by one with a trim after each |
| `Tui.Display.HandleEvent` | internal/display/tui.go:324-360 | whatever came before, list and log remain those that the whole event history leads to |
| `Tui.Display.FilteredConnections` | internal/display/tui.go:567-599 | the shown rows are exactly those not in state 6, unless TIME_WAIT is shown, that pass the filter, if any; with a filter in list order, without one sorted by process number, equal numbers in any order |
| `Tui.SelectPicks` | internal/display/tui.go:569-597 | the rows that pass switch and filter keep their order and their number |
| `Tui.SortByPidSorts` | internal/display/tui.go:579-586 | sorting by process number is possible: the rows in nondecreasing order |
| `Tui.SortByPidPermutes` | internal/display/tui.go:579-586 | and none lost or added |
| `Tui.Display.Render` | internal/display/tui.go:443-460 | after drawing, 0 <= scroll <= max(0, n - rows), the slice bounds are valid and the page is that part of the shown rows, full or with all of them |
| `Tui.Display.HandleKey` | internal/display/tui.go:284-322 | a key: j, k and the arrows move the offset by one as far as there are rows, g to 0, G to the last page; a and t flip their switch and keep the offset as far as there are rows; / drops the filter; any other key changes nothing |
| `Tui.CommandOf` | internal/display/tui.go:284-322 | which key asks for what, by code point |
| `Tui.Display.HandleCommand` | internal/display/tui.go:284-322 | the same by command; after `G` the page ends with the last of the shown rows |
| `Tui.Display.Resize` | internal/display/tui.go:225-227 | after a resize the page is valid for the new height |
| `Tui.Display.ApplyFilter` | internal/display/tui.go:251-256 | a new filter starts at the top with a valid page |
| `Tui.Display.VisibleRows` | internal/display/tui.go:373-382 | four lines less than the height, or than half of it if alerts are shown; never less than one row |
| `ProcNet.ReadTable` | internal/process/proc.go:128-146 | the line loop yields the connections of all lines after the header that can be parsed, in order |
| `ProcNet.RowReadsBack` | internal/process/proc.go:75-125 | a line in the documented format, with any blanks between and any further columns, reads back to the connection it prints |
| `ProcNet.LineAcceptedIff` | internal/process/proc.go:83-106 | a line is a connection if and only if it has ten fields, a slot number and a colon in both endpoints |
| `ProcNet.TableReadsBack` | internal/process/proc.go:128-146 | a header and lines, with blank or unreadable lines in between, read back to exactly the printed connections, in order |
| `ProcNet.EndpointReadsBack` | internal/process/proc.go:96-108 | address and port survive printing as HEX:PORT |
| `ProcNet.HexToIPNamesBytes` | internal/process/proc.go:24-30 | `HexToIP` of an address as a little-endian kernel prints it names its four bytes in order |
| `ProcNet.OtherLengthsAreKept` | internal/process/proc.go:24-49 | a text that is not 8 or 32 long is passed on as it is |
| `ProcNet.OtherHexHasNoAddress` | internal/process/proc.go:24-73 | hexadecimal text of any length but 8, an IPv6 column among them, leads to no address |
| `ProcNet.DottedReadsBack` | internal/capture/capture_proc.go:173-174 | dotted text is parsed to the four bytes it names |
| `ProcNet.SplitFile` | internal/process/proc.go:134 | splitting the file at line feeds gives back its lines and an empty one |
| `Strconv.DecimalReadsBack` | internal/process/proc.go:91-117 | decimal text reads back to its number |
| `Strconv.HexReadsBack` | internal/process/proc.go:102-117 | fixed-width hexadecimal text reads back to its number |
| `Strconv.DigitNames` | internal/process/proc.go:91-117 | the sixteen digits, read in either case |
| `Strconv.DecimalClamps` | internal/process/proc.go:117 | an inode that is too large for the type counts as the largest |
| `Strconv.SignedDecimalClamps` | internal/process/proc.go:91-114 | a signed number beyond either end is cut to that end |
| `Strconv.BadTextCountsAsZero` | internal/process/proc.go:102-117 | text that starts with no digit counts as 0 |
| `Strconv.FieldsOfTrim` | internal/process/proc.go:83-138 | trimming a line first does not change its fields |
| `Strconv.FieldsOfSpaced` | internal/process/proc.go:83 | words of printable ASCII characters with a blank, a tab or a line end before each are the fields |
| `Netlink.RecordReadsBack` | internal/capture/capture_netlink.go:355-389 | any record of the kernel, IPv4 or IPv6, with anything behind it, parses to its connection |
| `Netlink.ParseResponses` | internal/capture/capture_netlink.go:305-353 | the loop that advances the data and appends connections does what `WalkFrom` says, which the next rows pin; it terminates as the rest shrinks by at least 16 bytes |
| `Netlink.WalkMessage` | internal/capture/capture_netlink.go:308-349 | a padded message of another type, or a socket message too short, is passed over; a long enough one contributes its record |
| `Netlink.WalkDone` | internal/capture/capture_netlink.go:323-324 | NLMSG_DONE ends the walk; everything after it is ignored |
| `Netlink.WalkError` | internal/capture/capture_netlink.go:326-334 | NLMSG_ERROR ends the walk with the signed code at the start of its payload; code 0, or a payload below four bytes, is no error |
| `Netlink.WalkErrorBehind` | internal/capture/capture_netlink.go:305-334 | the same behind any padded messages, which have contributed what they carry |
| `Netlink.WalkTruncated` | internal/capture/capture_netlink.go:308-320 | bytes too short for a header, and a length below 16 or beyond the end, end the walk without an error |
| `Netlink.WalkTruncatedBehind` | internal/capture/capture_netlink.go:308-320 | the same behind any padded messages |
| `Netlink.CarriesIff` | internal/capture/capture_netlink.go:336-341 | a message carries a connection if and only if its type is 20 and its payload has 72 bytes |
| `Netlink.ByteOrders` | internal/capture/capture_netlink.go:314-316 | which byte is the lowest in either order |
| `Netlink.WalkStream` | internal/capture/capture_netlink.go:305-353 | the walk over a stream and then anything yields the stream's connections before those of the rest: parsing a concatenation concatenates |
| `Netlink.DumpReadsBack` | internal/capture/capture_netlink.go:305-389 | decoding inverts encoding: any sockets with attributes, padding and interleaved noise, ended by DONE, read back to exactly those sockets in order |
| `NetlinkDump.AlignedNeverPanics` | internal/capture/capture_netlink.go:347-349 | a datagram of a length that is a multiple of four is walked without a panic |
| `NetlinkDump.PanicPossibleIff` | internal/capture/capture_netlink.go:314-349 | a datagram of n bytes can make the walk panic if and only if n > 16 and n is not a multiple of four |
| `NetlinkDump.PanicsIff` | internal/capture/capture_netlink.go:314-349 | a given datagram does if and only if padded messages are followed by one of a type that does not end the walk, whole but with less behind it than the padding it needs |
| `NetlinkDump.WalkDecomposes` | internal/capture/capture_netlink.go:305-353 | every datagram whatsoever is a stream of padded messages and a rest at which the walk stops; the walk yields what the stream carries and ends as at the rest |
| `NetlinkDump.DumpFamily` | internal/capture/capture_netlink.go:278-302 | the receive loop, with receive errors, empty datagrams, netlink errors and DONE, does what `DumpOf` says, which the next rows pin |
| `NetlinkDump.DumpEndsByReceipt` | internal/capture/capture_netlink.go:282-290 | behind datagrams full of messages, a failed receive breaks the dump and an empty datagram finishes it, with what those carried |
| `NetlinkDump.DumpEndsByError` | internal/capture/capture_netlink.go:291-300 | behind such datagrams, a netlink error breaks the dump with what those carried, and what its own datagram carried before it is lost; an error without a code finishes the dump and loses nothing |
| `NetlinkDump.DumpEndsByPanic` | internal/capture/capture_netlink.go:291-292 | behind such datagrams, one that ends in a message without its padding crashes the dump |
| `NetlinkDump.CutDumpFinishes` | internal/capture/capture_netlink.go:278-302 | a dump cut into datagrams at any message boundaries finishes with exactly what its messages carry |
| `NetlinkDump.ChunkingDoesNotMatter` | internal/capture/capture_netlink.go:278-302 | any two ways of cutting the same messages give the same connections |
| `EbpfIndex.RunKeepsInverse` | internal/capture/capture_ebpf.go:262-295 | at every release of the lock, after any steps: an indexed inode is positive, its key is known, and the connection there has that inode |
| `EbpfIndex.RunIndexIsExact` | internal/capture/capture_ebpf.go:358-368 | different inodes lead to different keys, and the existence test of a matched close always succeeds |
| `EbpfIndex.StepKeepsCompleteIff` | internal/capture/capture_ebpf.go:262-380 | a step leaves a complete index complete if and only if it does not open a connection under another's inode |
| `EbpfIndex.RunIsCompleteIff` | internal/capture/capture_ebpf.go:262-380 | over a whole run the index misses no connection at any time if and only if no step ever clashes |
| `EbpfIndex.CloseRemovesIff` | internal/capture/capture_ebpf.go:358-368 | closing its inode removes a connection if and only if the index leads to it, and nothing else goes |
| `EbpfIndex.RunNeverIndexesMissed` | internal/capture/capture_ebpf.go:262-380 | a connection that the index misses stays missed through any steps, samples and resyncs alike, until it is forgotten |
| `EbpfIndex.ReusedInodeIsMissed` | internal/capture/capture_ebpf.go:262-380 | an input that clashes: an inode reused under another key leaves the first connection known after the close |
| `EbpfIndex.OwnerChangeIsMissed` | internal/capture/capture_ebpf.go:245-295 | another: a resync finds a socket under a new owner; forgetting the old key leaves the new one known and not indexed |
| `Ebpf.TrimStr` | internal/capture/capture_ebpf.go:389-395 | the bytes before the first zero |
| `Ebpf.SampleReadsBack` | internal/capture/capture_ebpf.go:298-330 | decoding inverts the kernel's sample layout in both families, byte orders included |
| `Ebpf.SampleKeyAgrees` | internal/capture/capture_ebpf.go:298-355 | from the bytes of an IPv4 socket's sample comes the key that the polling backends give the socket once they have its owner |
| `Ebpf.DirectionsAgree` | internal/capture/capture_ebpf.go:332-335 | a sample's direction is the one that polling would give |
| `Ebpf.CloseReportsOwner` | internal/capture/capture_ebpf.go:357-368 | a matched close reports owner and name of exactly the connection it removes, and has its key if and only if the sample names the same endpoints |
| `Ebpf.NewIsInOrderIff` | internal/capture/capture_ebpf.go:369-387 | a New is announced whether or not the key was known, so it keeps the protocol if and only if it was not |
| `Ebpf.HandledAsDefined` | internal/capture/capture_ebpf.go:298-387 | a sample's event has the time now; it is a Close if and only if the word at offset 0 is 3; its endpoints, inode, state 7 or 1 and direction are the sample's; a close that finds its inode has owner and name of the connection found, which goes, anything else has those of the sample; a New is entered and indexed unless its key is known |
| `Ebpf.SyncedRow` | internal/capture/capture_ebpf.go:199-258 | the resync's owner and name of a row: the kernel map's if it has the inode and that is not 0, else the process table's; an empty name is looked up |
| `Ebpf.LookUp` | internal/capture/capture_ebpf.go:199-216 | the kernel map is asked for every inode of the snapshot but 0 |
| `Ebpf.Owners` | internal/capture/capture_ebpf.go:226-239 | the kernel's owners win over the process table |
| `Ebpf.EbpfCapturer.constructor` | internal/capture/capture_ebpf.go:69-75 | a new capturer is empty |
| `Ebpf.EbpfCapturer.IndexIsSound` | internal/capture/capture_ebpf.go:62-67 | the index of every reachable capturer is a partial inverse |
| `Ebpf.EbpfCapturer.HandleSample` | internal/capture/capture_ebpf.go:298-387 | a sample of at least 88 bytes leads from the maps before to the event and the maps after as `Handled` says in terms of the bytes and the fields (`HandledAsDefined`), in one step of the index; a shorter one does nothing |
| `Ebpf.EbpfCapturer.CloseInode` | internal/capture/capture_ebpf.go:357-368 | the connection that the inode leads to goes from both maps and gives its owner and name to the closing one; an inode that leads nowhere changes nothing |
| `Ebpf.EbpfCapturer.Enter` | internal/capture/capture_ebpf.go:262-266 | an unknown connection is entered and, with an inode, indexed |
| `Ebpf.EbpfCapturer.Forget` | internal/capture/capture_ebpf.go:281-284 | a connection and its index entry go together |
| `Ebpf.EbpfCapturer.See` | internal/capture/capture_ebpf.go:259-276 | a connection of the snapshot is counted as current and reported when new |
| `Ebpf.EbpfCapturer.AddRows` | internal/capture/capture_ebpf.go:245-276 | the loop over the rows skips those in state LISTEN, enters what is new and reports it at once, in order |
| `Ebpf.EbpfCapturer.DropGone` | internal/capture/capture_ebpf.go:279-294 | each gone connection is reported once and removed from both maps |
| `Ebpf.EbpfCapturer.SyncProc` | internal/capture/capture_ebpf.go:193-296 | whatever samples were handled or lost before: afterwards the known keys are exactly those of the rows whose state is not 10, the index leads to no other, and the events are those of a scan; what the index missed before and is still known it still misses |
| `Pipeline.AnalyzeAll` | internal/detect/detector.go:72-83 | all detectors on one event: the periodic alert, if there is one, before those of the others; those of the others alone if there is none; none for a close |
| `Pipeline.BatchIs` | internal/detect/detector.go:72-83 | over a whole trace, what travels with event i in each of these cases |
| `Pipeline.Process` | cmd/netbrother/main.go:55-69 | every event is analysed and passed on with its alerts, in order: detector and display end up with what the whole trace and the other detectors' alerts lead to |
| `Pipeline.Session` | cmd/netbrother/main.go:55-69 | a whole session: one scan for every tick whose reading succeeds; at the end exactly the keys of the latest snapshot are known, the list shows no others, and the log holds the newest noted alerts of all detectors on the capturer's events |
| `Pipeline.AlertsInTraceAreSound` | internal/detect/periodic.go:59-132 | in a trace of many keys every alert is about its own connection, and its mean describes the recent New events with the same PID, remote address text and remote port |
| `Pipeline.BeaconInTraceIsCaught` | internal/detect/periodic.go:59-132 | a beacon among any other traffic is alerted first at its k-th connection |
| `Pipeline.BeaconInTraceIsCaughtAgain` | internal/detect/periodic.go:84-116 | and again within cooldown + b while it goes on |
| `Pipeline.OthersAreLogged` | internal/display/tui.go:324-360 | every alert of another detector on a shown New event is in the log right after it, in order, whether or not the periodic detector raised one |
| `Pipeline.RaisedAlertIsLogged` | internal/display/tui.go:324-360 | whatever the other detectors raise: a periodic alert enters the log, unless its event is skipped, and right after the event only the alerts raised with it by other detectors are newer |
| `Pipeline.CaughtBeaconIsLogged` | internal/display/tui.go:324-360 | so does the first alert of a beacon, at its k-th connection |

The contracts are about these specification functions; what they mean is said by the rows above in terms
of the raw fields, bytes and numbers:
`Beacon.Judge`, `Conclude`, `Observe`, `Analyze` (internal/detect/periodic.go:59-133), `Scan.Absorb`, `News`,
`EventsOf` (internal/capture/capture_netlink.go:155-211), `Sockets.ToConnection` (capture_netlink.go:391-426 and
capture_proc.go:163-195), `Netlink.ParseRecord`, `WalkFrom` (capture_netlink.go:305-389), `ProcNet.ParseLine`,
`Table`, `HexToIP` (internal/process/proc.go:24-146), `Mirror.Apply`, `AlertLog.Note` (internal/display/tui.go:324-360),
`EbpfIndex.Apply`, `Ebpf.ParseSample`, `EventOf` (internal/capture/capture_ebpf.go:262-387).

## Left out

- Sockets, system calls, walks over `/proc`, loading and attaching probes, perf reading, tickers and signals: snapshots, samples, byte buffers, the process table and the clock are parameters.
- The request that `dumpFamily` sends, and the loop of `dumpTCP` over the two address families, which drops what a family that failed has read: `ScanAndEmit` takes the list that results.
- What happens after cancellation: the runs are those before it, so every event of a scan is sent.
- Floating-point rounding and overflow of durations: statistics and times are exact, and the variance stands for the standard deviation (`BeaconStats.CvTestNeedsNoRoot` says why that changes no verdict).
- The text of alerts; an alert carries the connection, the time and the statistics that the text is made of.
- The IPv6 text that `expandIPv6` makes of a table entry: it has four groups, which `net.ParseIP` does not read, so nothing is claimed beyond that; the agreement of the backends is about IPv4.
- Hosts that are not little-endian, for the table and for samples; the netlink decoder is modelled for both orders.
- `process.ProcessName` changing its answer during a scan: the names that can be read are one map per scan.
- The capacity that `append` gives a new array: twice the old one and one more, which no contract depends on.
- keep = true in the theorems that tie the display to the capturer: closed rows stay, so keys may repeat. What the list then holds is `Mirror.KeptRowsAreNewestShown`; switching keep is not possible in the program.
- Drawing, escape sequences, the filter's text matching (any predicate) and the rows of the alert pane.
- The interleaving of the three goroutines: they hand each event on in order, so `Session` runs them one after the other.
- Alternation of New and Close for the eBPF backend: the code does not keep it.
- The rules of the novelty and the suspicious detector: their alerts are arbitrary in `Pipeline` (they raise at most two each, far fewer than the log holds).
- The pcap backend, file output and flags: thin wrappers or first-occurrence facts.
