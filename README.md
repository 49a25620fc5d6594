# NetSpeedMonitor traffic sampling, modelled in Dafny

NetSpeedMonitor is a macOS menu-bar app that shows the throughput of the
primary network interface. Its core is `NetTrafficStatReceiver`. On each timer
tick at which a primary interface resolves (NetSpeedMonitor/MenuBarState.swift:239-246),
the receiver reads the kernel's interface table with a two-stage `sysctl`
(a sizing stage, then a fetch stage). It walks the variable-length `if_msghdr`
records in that table and keeps one snapshot per interface name: a timestamp
plus cumulative inbound and outbound bytes. For every interface that survives
the filters, it emits a `NetTrafficStat`:

- on first sighting, a zero sample that seeds the baseline;
- afterwards, the wrap-aware 64-bit byte deltas since the snapshot and the
  rates derived from them (zero when more than 60 s have passed).

Beside the receiver, `MenuBarState` contributes the update-interval and
speed-unit enums and a rolling window of the last five latency values
appended. The current `latencyMs` is appended on every quality update, so one
measurement can fill several slots.

The project has four files:

- `wrappers.dfy`: `Option` and `Result`.
- `net_traffic.dfy` (module `NetTraffic`): the data model, `DeltaBytes`,
  `ComputeSpeeds`, the record filters, and the specification of one poll
  (`Observe`, `Walk`, `Poll`). It also holds the class
  `NetTrafficStatReceiver`, whose `snapshots` map is updated in place by
  `FetchStats`. That method walks the table with a cursor loop, as the Swift
  code does, and is proved to produce exactly what `Poll` specifies.
- `net_traffic_proofs.dfy` (module `NetTrafficProofs`): what a poll does to
  the snapshots and what it reports. It also has scenarios driven through the
  receiver itself.
- `menu_bar_state.dfy` (module `MenuBar`): the enums and the class
  `MenuBarState` with its latency window.

The operating system is not called. Each `sysctl` stage is an input that is
either a reply or an errno (`SysctlReply`). The fetched table is a
`RouteTable`: the byte count written plus the sequence of records, each of
which still carries its declared length `ifm_msglen`. `if_indextoname` is a
partial map from interface index to name, and the clock reading `Date()` is
the parameter `now`, in seconds. The Darwin constants `RTM_IFINFO` (0xe),
`IFF_UP` (0x1) and `IFF_LOOPBACK` (0x8) come from the system headers, which
are not part of this model.

The model follows the code in four places where a more defensive design would do more:

- The record walk does no bounds check: the cursor just advances by each
  record's declared length (NetSpeedMonitor/NetTrafficStatReceiver.swift:108-115).
- A counter that goes down is not re-seeded. It is measured as the modular
  forward distance (lines 206-212).
- An interval is non-negative only when the clock has not moved backwards
  since the snapshot. `PollIsSound` proves it under exactly that
  precondition.
- The walk does not check that interface names are unique within one table.
  Uniqueness comes from the kernel listing each interface once, so the
  per-interface lemmas (`SampleOfEachInterface`, `FirstPollReportsZero`,
  `StaleReappearanceReportsZeroRates`) assume it. With a duplicate, the
  second record is measured against the snapshot the first has just written:
  its interval is 0 and its rate is 1000 times its delta
  (`DuplicateNameScenario`).

`Observe`, `Walk`, `Poll`, `IsLoopback`, `IsUp`, `SnapshotOf`, `ZeroStat`,
`UnitRawValue` and `RateIn` carry no contract of their own. They are the
reference definitions that `FetchStats` and the lemmas are proved against.

## Model

| member | source | states |
|---|---|---|
| `NetTraffic.WrappingAdd` | NetSpeedMonitor/NetTrafficStatReceiver.swift:211 | `&+` adds exactly when the sum fits in 64 bits, and otherwise drops 2^64 |
| `NetTraffic.DeltaBytes` | NetSpeedMonitor/NetTrafficStatReceiver.swift:206-213 | the result is `(current - previous) mod 2^64`, and adding it to `previous` (wrapping) gives `current` back; it equals `current - previous` when the counter did not go down; in the wrap branch it equals the unwrapped sum `current + (MAX - previous) + 1`, so neither `&+` overflows |
| `NetTraffic.ComputeSpeeds` | NetSpeedMonitor/NetTrafficStatReceiver.swift:215-225 | an interval over 60 s gives exactly (0, 0) whatever the deltas; otherwise each rate times the divisor `max(deltaTime, 0.001)` is its delta, so the divisor is at least 1 ms; rate × interval = delta for intervals in [0.001, 60]; below 1 ms the rate is 1000 × delta; rates are never negative and never exceed 1000 × delta |
| `NetTraffic.PrefixLengthBelowTotal` | NetSpeedMonitor/NetTrafficStatReceiver.swift:105-115 | with positive record lengths, the cursor after a proper prefix of the records is still before the table's end, and after all of them it is at the end, so the `cursor < endPointer` walk visits each record exactly once |
| `NetTraffic.InterfaceName` | NetSpeedMonitor/NetTrafficStatReceiver.swift:117-145 | a record is sampled exactly when it is an `RTM_IFINFO` record, not loopback, up, its index resolves, and the name is non-empty; the name used is the resolved one |
| `NetTraffic.Sample` | NetSpeedMonitor/NetTrafficStatReceiver.swift:151-192 | every sample is stamped with the poll's `now`; with no snapshot it is the all-zero stat; against a snapshot its interval is `now - snapshot.timestamp`, its deltas carry the snapshot's counters forward to the record's (mod 2^64), a stale interval gives zero rates, otherwise each rate times `max(interval, 0.001)` is its delta; rates are within [0, 1000 × delta] |
| `NetTraffic.IsLoopback` | NetSpeedMonitor/NetTrafficStatReceiver.swift:123 | reference definition: the `IFF_LOOPBACK` bit of the flags is set |
| `NetTraffic.IsUp` | NetSpeedMonitor/NetTrafficStatReceiver.swift:124 | reference definition: the `IFF_UP` bit of the flags is set |
| `NetTraffic.SnapshotOf` | NetSpeedMonitor/NetTrafficStatReceiver.swift:175-183 | reference definition: the snapshot either branch writes, (now, the record's inbound and outbound counters) |
| `NetTraffic.ZeroStat` | NetSpeedMonitor/NetTrafficStatReceiver.swift:184-191 | reference definition: the first-sighting stat, stamped `now` with zero interval, deltas and rates |
| `NetTraffic.Observe` | NetSpeedMonitor/NetTrafficStatReceiver.swift:117-192 | reference definition of one record's effect: a filtered record changes nothing; an accepted one writes its `Sample` against the name's current snapshot and overwrites that snapshot with `SnapshotOf` |
| `NetTraffic.Walk` | NetSpeedMonitor/NetTrafficStatReceiver.swift:108-193 | reference definition of the walk: the records observed in table order, all at the one `now` |
| `NetTraffic.Poll` | NetSpeedMonitor/NetTrafficStatReceiver.swift:94-193 | reference definition of a poll: the walk from the receiver's snapshots and an empty `latestStats` |
| `NetTraffic.NetTrafficStatReceiver.constructor` | NetSpeedMonitor/NetTrafficStatReceiver.swift:21 | a new receiver has no snapshots |
| `NetTraffic.NetTrafficStatReceiver.Reset` | NetSpeedMonitor/NetTrafficStatReceiver.swift:27-30 | `reset` empties the snapshot map |
| `NetTraffic.NetTrafficStatReceiver.FetchStats` | NetSpeedMonitor/NetTrafficStatReceiver.swift:53-204 | a failing sizing stage throws `unableToQuery` with its errno, and a failing fetch stage throws `unableToFetch` with its errno; both leave the snapshots unchanged; `dataLength == 0` gives an empty result with the snapshots unchanged; otherwise the cursor walk returns exactly the samples of `Poll` and leaves exactly its snapshots |
| `NetTraffic.NetTrafficStatReceiver.GetNetTrafficStatMap` | NetSpeedMonitor/NetTrafficStatReceiver.swift:32-51 | a failure of either `sysctl` stage yields an empty map and keeps the snapshots; success yields the poll's samples and snapshots |
| `NetTrafficProofs.AcceptedNames` | NetSpeedMonitor/NetTrafficStatReceiver.swift:117-145 | a name is accepted in a poll exactly when some record of the table passes every filter under that name |
| `NetTrafficProofs.Kept` | NetSpeedMonitor/NetTrafficStatReceiver.swift:117-145 | the records kept are no more than the table's, and every one of them passes the filters |
| `NetTrafficProofs.WalkKeys` | NetSpeedMonitor/NetTrafficStatReceiver.swift:154-192 | after a poll, the snapshot keys are the old keys plus the accepted names, and the sample keys are the keys already sampled plus the accepted names (exactly the accepted names in a poll, which starts with none); no snapshot is ever removed |
| `NetTrafficProofs.WalkLeavesOthersAlone` | NetSpeedMonitor/NetTrafficStatReceiver.swift:108-193 | an interface no record of the poll is sampled under keeps its snapshot (or its absence) and gets no new sample |
| `NetTrafficProofs.SkippedRecordsAreInert` | NetSpeedMonitor/NetTrafficStatReceiver.swift:117-145 | filtered records have no effect: the poll over the whole table equals the poll over only the records that pass |
| `NetTrafficProofs.SampleOfEachInterface` | NetSpeedMonitor/NetTrafficStatReceiver.swift:154-192 | with unique names, each accepted interface's sample is that record's sample against the snapshot it had before the poll (zero on first sighting), and its snapshot becomes (now, record counters) |
| `NetTrafficProofs.WalkKeepsSound` | NetSpeedMonitor/NetTrafficStatReceiver.swift:94-192 | if no snapshot is newer than `now` and every sample so far is stamped `now` with a non-negative interval, that stays so through the walk |
| `NetTrafficProofs.PollIsSound` | NetSpeedMonitor/NetTrafficStatReceiver.swift:94-192 | when no snapshot is newer than the poll's single `now`, every sample of the poll is stamped `now`, has a non-negative interval and rates in [0, 1000 × delta], and every new snapshot is again no newer than `now` |
| `NetTrafficProofs.WalkEmitsSamples` | NetSpeedMonitor/NetTrafficStatReceiver.swift:166-191 | every sample a poll emits is `Sample` of one of the table's records, taken against some snapshot or none |
| `NetTrafficProofs.FirstPollReportsZero` | NetSpeedMonitor/NetTrafficStatReceiver.swift:179-191 | with unique names, a poll with no baselines (new or reset receiver) reports every accepted interface, and only those, with the zero stat, and seeds a snapshot for each |
| `NetTrafficProofs.StaleReappearanceReportsZeroRates` | NetSpeedMonitor/NetTrafficStatReceiver.swift:154-178 | with unique names, an interface whose snapshot is more than 60 s old reports zero rates but its wrap-aware byte deltas, and is re-baselined to (now, its counters) |
| `NetTrafficProofs.SteadyAdvanceRate` | NetSpeedMonitor/NetTrafficStatReceiver.swift:154-173 | a counter that advanced by N bytes without wrapping, sampled t seconds (1 ms to 60 s) after its snapshot, reports interval t, delta N and a rate with rate × t = N; over one second the rate is N B/s |
| `NetTrafficProofs.DuplicateNameScenario` | NetSpeedMonitor/NetTrafficStatReceiver.swift:154-191 | two records resolving to "en0" in a first poll (100 then 150 inbound bytes) report interval 0, delta 50 and 50000.0 B/s: the second is measured against the snapshot the first just wrote |
| `NetTrafficProofs.TwoPollScenario` | NetSpeedMonitor/NetTrafficStatReceiver.swift:154-191 | en0 at t=0 with 1000/500 bytes gives the zero stat; at t=1 with 2500/1200 it gives deltas 1500/700 and rates 1500.0/700.0 |
| `NetTrafficProofs.WrapScenario` | NetSpeedMonitor/NetTrafficStatReceiver.swift:206-224 | an inbound counter going from 2^64 - 1 to 50 in one second reports a delta of 51 at 51.0 B/s |
| `NetTrafficProofs.StaleScenario` | NetSpeedMonitor/NetTrafficStatReceiver.swift:117-178 | en0 filtered out as down at t=30 and t=60 is missing from those polls; back at t=120 it reports deltas 9000/4000 over 120 s with zero rates |
| `NetTrafficProofs.FailedPollScenario` | NetSpeedMonitor/NetTrafficStatReceiver.swift:44-50 | a poll whose fetch fails reports an empty map, and the next poll measures from the last successful one (3000 bytes over 2 s, 1500.0 B/s) |
| `NetTrafficProofs.ResetScenario` | NetSpeedMonitor/NetTrafficStatReceiver.swift:27-30 | after `reset`, a poll reports exactly what a new receiver's first poll of the same table reports |
| `MenuBar.IntervalRawValue` | NetSpeedMonitor/MenuBarState.swift:7-12 | every update interval is a positive number of seconds |
| `MenuBar.IntervalFromRawValue` | NetSpeedMonitor/MenuBarState.swift:7-12 | the raw values are exactly 1, 2, 5, 10 and 30: the lookup succeeds on those and no others, and gives back the interval with that raw value |
| `MenuBar.IntervalRawValueRoundTrip` | NetSpeedMonitor/MenuBarState.swift:7-12 | looking up an interval's raw value gives that interval |
| `MenuBar.IntervalDisplayName` | NetSpeedMonitor/MenuBarState.swift:16-24 | each interval's label is its raw value in decimal followed by "s" |
| `MenuBar.UnitFromRawValue` | NetSpeedMonitor/MenuBarState.swift:27-29 | the unit raw values are exactly "bits" and "bytes", and the lookup inverts them |
| `MenuBar.UnitRawValueRoundTrip` | NetSpeedMonitor/MenuBarState.swift:27-29 | looking up a unit's raw value gives that unit |
| `MenuBar.UnitRawValue` | NetSpeedMonitor/MenuBarState.swift:27-29 | reference definition: the raw values "bits" and "bytes", which `UnitFromRawValue` inverts |
| `MenuBar.Multiplier` | NetSpeedMonitor/MenuBarState.swift:40-45 | the multiplier is at least 1: eight (bits in a byte) for bits, one for bytes |
| `MenuBar.ShortUnit` | NetSpeedMonitor/MenuBarState.swift:47-52 | a one-letter symbol: the first letter of the raw value for bits ("b"), that letter upper-cased for bytes ("B") |
| `MenuBar.RateIn` | NetSpeedMonitor/MenuBarState.swift:259-261 | reference definition: a bytes-per-second rate times the unit's multiplier |
| `MenuBar.UnitDisplayName` | NetSpeedMonitor/MenuBarState.swift:33-38 | each unit's label is its raw value capitalized, followed by "/s" |
| `MenuBar.UnitConversion` | NetSpeedMonitor/MenuBarState.swift:40-52 | the multiplier is 8 for bits and 1 for bytes, so a rate converted with it (as `startTimer` does) reads eight times larger in bits; `shortUnit` is "b" and "B" respectively, and it tells the units apart |
| `MenuBar.WindowAfter` | NetSpeedMonitor/MenuBarState.swift:143-147 | the new latency becomes the last element; a window of at most 5 stays at most 5; below 5 the latency is appended; at 5 or more only the oldest element is dropped and the rest keep their order |
| `MenuBar.HistoryIsLastFive` | NetSpeedMonitor/MenuBarState.swift:143-147 | starting from an empty history, the window always holds exactly the last min(5, n) values appended, in order |
| `MenuBar.MenuBarState.constructor` | NetSpeedMonitor/MenuBarState.swift:88-89 | no latency yet and an empty history |
| `MenuBar.MenuBarState.GetNetworkQuality` | NetSpeedMonitor/MenuBarState.swift:140-147 | with no latency it returns "---" and leaves the history unchanged; with one, the history becomes `WindowAfter` of the old history (at most 5 if it was at most 5, newest last) and that window is what is scored |

## Left out

- The `sysctl` calls themselves, the reinterpretation of raw memory as `if_msghdr`, `if_indextoname` and the clock are foreign calls. They become inputs, as described above.
- `sysctlBuffer` growth and reuse, and its clearing in `reset`, are a buffer-allocation detail with no effect on results. The sizing stage's length is carried but not used.
- NetTraffic.NetTrafficStatReceiver.FetchStats: requires a fetched table to be framed, meaning every declared record length is positive and the lengths sum to `dataLength`. The code checks neither: a zero `ifm_msglen` would make the walk loop forever, and an over-long one would read past the buffer. Those behaviours are not modelled.
- The conversion `UInt32(ifm_flags)` would trap on a negative flags value. Flags are modelled as a 32-bit word.
- The byte counters are taken as the `UInt64` values that line 151 produces. The kernel header that fixes the width of `ifi_ibytes`/`ifi_obytes` in the table is not part of this model. A narrower kernel counter that wraps would not be covered by the 64-bit wrap logic.
- Intervals, rates and the 0.001 and 60 constants are exact reals. `Double` rounding, including `Double(UInt64)` above 2^53, is not modelled.
- `SysctlError.errorDescription` is not modelled: it formats `strerror` text.
- Logging and `print` output everywhere are not modelled.
- Concurrent access to the receiver is not modelled. The app drives it from one timer.
- `findPrimaryInterface` (SCDynamicStore), the timers, `SMAppService` auto-launch and the async latency measurement are OS services or concurrency.
- From `getNetworkQuality`, the quality score (mean, variance, piecewise percentage) and its `String(format:)` text are floating-point formatting. The model returns the window that would be scored.
- `generateResponsiveMenuText` chooses a format by font width, which is UI measurement. Of `startTimer`, only the application of the unit multiplier appears (`MenuBar.RateIn`); the MB/s conversion and the display text are left out.
- The enums' `id` properties are just the raw values. `CaseIterable` is not modelled.
- MenuContentView.swift and NetSpeedMonitorApp.swift hold SwiftUI views, and Package.swift is the build manifest.
