/**
  The traffic-rate sampling engine of NetSpeedMonitor: a receiver that keeps one
  snapshot (timestamp, cumulative inbound and outbound bytes) per interface name
  and, on each poll of the kernel's interface table, turns the table's records
  into per-interface byte deltas and rates.

  The kernel is not called here. The two `sysctl` stages are inputs (a reply or
  an errno), the table is supplied as a sequence of records that still carry
  their declared lengths, `if_indextoname` is a partial map from interface index
  to name, and the clock reading `now` is a parameter, in seconds.
*/
module NetTraffic {
  import opened Wrappers

  // ---------------------------------------------------------------------------
  // 64-bit counters and the two pure helpers
  // ---------------------------------------------------------------------------

  const TWO_TO_THE_64: int := 0x1_0000_0000_0000_0000
  const UINT64_MAX: int := TWO_TO_THE_64 - 1

  /** Swift's `UInt64`. */
  type UInt64 = x: int | 0 <= x < TWO_TO_THE_64

  /** Swift's wrapping addition `&+` on `UInt64`. */
  function WrappingAdd(a: UInt64, b: UInt64): (r: UInt64)
    ensures a + b < TWO_TO_THE_64 ==> r == a + b
    ensures a + b >= TWO_TO_THE_64 ==> r == a + b - TWO_TO_THE_64
  {
    (a + b) % TWO_TO_THE_64
  }

  /**
    The number of bytes a counter advanced from `previous` to `current`,
    assuming it wrapped around zero when it went down. The result is the
    forward distance modulo 2^64: adding it to `previous` (wrapping) gives
    `current` back. In the wrap branch neither `&+` actually overflows.
  */
  function DeltaBytes(current: UInt64, previous: UInt64): (r: UInt64)
    ensures r == (current - previous) % TWO_TO_THE_64
    ensures WrappingAdd(previous, r) == current
    ensures current >= previous ==> r == current - previous
    ensures current < previous ==> r == current + (UINT64_MAX - previous) + 1
  {
    if current >= previous then
      current - previous
    else
      WrappingAdd(WrappingAdd(current, UINT64_MAX - previous), 1)
  }

  /** Samples older than this many seconds report zero rates. */
  const STALE_AFTER_SECONDS: real := 60.0
  /** The smallest interval a delta is divided by. */
  const MIN_INTERVAL_SECONDS: real := 0.001

  datatype Speeds = Speeds(inbound: real, outbound: real)

  function MaxReal(a: real, b: real): real
  {
    if a >= b then a else b
  }

  /**
    Bytes per second in each direction. A stale interval (more than 60 s)
    gives exactly zero; otherwise each delta is divided by the interval,
    clamped from below to 1 ms, so no rate exceeds 1000 times its delta.
  */
  function ComputeSpeeds(deltaTime: real, inboundDelta: UInt64, outboundDelta: UInt64): (r: Speeds)
    ensures deltaTime > STALE_AFTER_SECONDS ==> r == Speeds(0.0, 0.0)
    ensures deltaTime <= STALE_AFTER_SECONDS ==>
      var divisor := MaxReal(deltaTime, MIN_INTERVAL_SECONDS);
      divisor >= MIN_INTERVAL_SECONDS &&
      r.inbound * divisor == inboundDelta as real &&
      r.outbound * divisor == outboundDelta as real
    ensures MIN_INTERVAL_SECONDS <= deltaTime <= STALE_AFTER_SECONDS ==>
      r.inbound * deltaTime == inboundDelta as real && r.outbound * deltaTime == outboundDelta as real
    ensures deltaTime < MIN_INTERVAL_SECONDS ==>
      r.inbound == 1000.0 * inboundDelta as real && r.outbound == 1000.0 * outboundDelta as real
    ensures 0.0 <= r.inbound <= 1000.0 * inboundDelta as real
    ensures 0.0 <= r.outbound <= 1000.0 * outboundDelta as real
  {
    if deltaTime > STALE_AFTER_SECONDS then
      Speeds(0.0, 0.0)
    else
      var safeInterval := MaxReal(deltaTime, MIN_INTERVAL_SECONDS);
      RateBound(inboundDelta as real, safeInterval);
      RateBound(outboundDelta as real, safeInterval);
      Speeds(inboundDelta as real / safeInterval, outboundDelta as real / safeInterval)
  }

  /** Dividing a non-negative amount by at least 1 ms gives at most 1000 times it. */
  lemma RateBound(delta: real, divisor: real)
    requires delta >= 0.0 && divisor >= MIN_INTERVAL_SECONDS
    ensures 0.0 <= delta / divisor <= 1000.0 * delta
  {
  }

  // ---------------------------------------------------------------------------
  // The kernel's interface table
  // ---------------------------------------------------------------------------

  /** Message type of an interface-info record (Darwin `RTM_IFINFO`). */
  const RTM_IFINFO: nat := 0xe
  /** Darwin `IFF_UP`. */
  const IFF_UP: bv32 := 0x1
  /** Darwin `IFF_LOOPBACK`. */
  const IFF_LOOPBACK: bv32 := 0x8

  /**
    One variable-length record of the table (`if_msghdr`): its declared length
    `ifm_msglen`, type, flags, interface index and the two byte counters.
  */
  datatype IfMsg = IfMsg(
    msgLen: nat,
    msgType: nat,
    flags: bv32,
    index: nat,
    inboundBytes: UInt64,
    outboundBytes: UInt64)

  /** The reply of the fetch stage: the byte count written and the records in it. */
  datatype RouteTable = RouteTable(dataLength: nat, records: seq<IfMsg>)

  /** What one `sysctl` stage gives back: its value, or the `errno` it failed with. */
  datatype SysctlReply<T> = Replied(value: T) | Errno(code: int)

  datatype SysctlError = UnableToQuery(errno: int) | UnableToFetch(errno: int)

  /** `if_indextoname`: the indices it resolves, with the names it gives. */
  type NameTable = map<nat, string>

  /** The sum of the declared lengths of `records`. */
  function TotalLength(records: seq<IfMsg>): nat
  {
    if records == [] then 0
    else TotalLength(records[..|records| - 1]) + records[|records| - 1].msgLen
  }

  /**
    The table is cut exactly into its records: every declared length is
    positive, and together they cover `dataLength` bytes. This is what the
    kernel's reply provides; the walk itself does not check it.
  */
  predicate Framed(table: RouteTable)
  {
    && (forall k :: 0 <= k < |table.records| ==> table.records[k].msgLen > 0)
    && TotalLength(table.records) == table.dataLength
  }

  /** A proper prefix of a framed table ends before the table does. */
  lemma {:induction false} PrefixLengthBelowTotal(records: seq<IfMsg>, i: nat)
    requires forall k :: 0 <= k < |records| ==> records[k].msgLen > 0
    requires i <= |records|
    ensures i < |records| ==> TotalLength(records[..i]) < TotalLength(records)
    ensures i == |records| ==> TotalLength(records[..i]) == TotalLength(records)
    decreases |records|
  {
    if i < |records| {
      var front := records[..|records| - 1];
      if i < |front| {
        PrefixLengthBelowTotal(front, i);
        assert front[..i] == records[..i];
      } else {
        assert front == records[..i];
      }
    } else {
      assert records[..i] == records;
    }
  }

  predicate IsLoopback(flags: bv32)
  {
    flags & IFF_LOOPBACK != 0
  }

  predicate IsUp(flags: bv32)
  {
    flags & IFF_UP != 0
  }

  /**
    The name under which a record is sampled, or None when one of the filters
    drops it: not an interface-info record, a loopback interface, an interface
    that is down, an index the name table does not resolve, or an empty name.
  */
  function InterfaceName(msg: IfMsg, names: NameTable): (r: Option<string>)
    ensures r.Some? <==>
      && msg.msgType == RTM_IFINFO
      && !IsLoopback(msg.flags)
      && IsUp(msg.flags)
      && msg.index in names
      && names[msg.index] != ""
    ensures r.Some? ==> r.value == names[msg.index] && r.value != ""
  {
    if msg.msgType != RTM_IFINFO then None
    else if IsLoopback(msg.flags) then None
    else if !IsUp(msg.flags) then None
    else if msg.index !in names then None
    else if names[msg.index] == "" then None
    else Some(names[msg.index])
  }

  // ---------------------------------------------------------------------------
  // Snapshots and samples
  // ---------------------------------------------------------------------------

  datatype InterfaceSnapshot = InterfaceSnapshot(timestamp: real, inboundBytes: UInt64, outboundBytes: UInt64)

  /** One emitted sample (`NetTrafficStat`). */
  datatype NetTrafficStat = NetTrafficStat(
    timestamp: real,
    deltaTime: real,
    deltaInboundBytes: UInt64,
    deltaOutboundBytes: UInt64,
    inboundBytesPerSecond: real,
    outboundBytesPerSecond: real)

  /** The snapshot a record leaves behind: the poll's time and the record's counters. */
  function SnapshotOf(msg: IfMsg, now: real): InterfaceSnapshot
  {
    InterfaceSnapshot(now, msg.inboundBytes, msg.outboundBytes)
  }

  /** The sample of a first sighting: no baseline, so nothing is reported. */
  function ZeroStat(now: real): NetTrafficStat
  {
    NetTrafficStat(now, 0.0, 0, 0, 0.0, 0.0)
  }

  /**
    The sample a record yields against the snapshot its name had (if any).
    Against a snapshot, the deltas carry the old counters forward to the new
    ones (modulo 2^64), the interval is the time since the snapshot, a stale
    interval gives zero rates, and otherwise each rate times the interval
    (clamped to at least 1 ms) is its delta.
  */
  function Sample(previous: Option<InterfaceSnapshot>, msg: IfMsg, now: real): (stat: NetTrafficStat)
    ensures stat.timestamp == now
    ensures previous.None? ==> stat == ZeroStat(now)
    ensures previous.Some? ==>
      && stat.deltaTime == now - previous.value.timestamp
      && WrappingAdd(previous.value.inboundBytes, stat.deltaInboundBytes) == msg.inboundBytes
      && WrappingAdd(previous.value.outboundBytes, stat.deltaOutboundBytes) == msg.outboundBytes
      && (stat.deltaTime > STALE_AFTER_SECONDS ==>
            stat.inboundBytesPerSecond == 0.0 && stat.outboundBytesPerSecond == 0.0)
      && (stat.deltaTime <= STALE_AFTER_SECONDS ==>
            && stat.inboundBytesPerSecond * MaxReal(stat.deltaTime, MIN_INTERVAL_SECONDS)
                 == stat.deltaInboundBytes as real
            && stat.outboundBytesPerSecond * MaxReal(stat.deltaTime, MIN_INTERVAL_SECONDS)
                 == stat.deltaOutboundBytes as real)
    ensures 0.0 <= stat.inboundBytesPerSecond <= 1000.0 * stat.deltaInboundBytes as real
    ensures 0.0 <= stat.outboundBytesPerSecond <= 1000.0 * stat.deltaOutboundBytes as real
  {
    match previous
    case None => ZeroStat(now)
    case Some(p) =>
      var deltaTime := now - p.timestamp;
      var inboundDelta := DeltaBytes(msg.inboundBytes, p.inboundBytes);
      var outboundDelta := DeltaBytes(msg.outboundBytes, p.outboundBytes);
      var speeds := ComputeSpeeds(deltaTime, inboundDelta, outboundDelta);
      NetTrafficStat(now, deltaTime, inboundDelta, outboundDelta, speeds.inbound, speeds.outbound)
  }

  // ---------------------------------------------------------------------------
  // The walk over one table, as a specification
  // ---------------------------------------------------------------------------

  /** The receiver's snapshots together with the samples emitted so far in a poll. */
  datatype PollState = PollState(snapshots: map<string, InterfaceSnapshot>, stats: map<string, NetTrafficStat>)

  /** The effect of one record: skipped, or sampled and its snapshot overwritten. */
  function Observe(s: PollState, msg: IfMsg, now: real, names: NameTable): PollState
  {
    match InterfaceName(msg, names)
    case None => s
    case Some(name) =>
      var previous := if name in s.snapshots then Some(s.snapshots[name]) else None;
      PollState(s.snapshots[name := SnapshotOf(msg, now)], s.stats[name := Sample(previous, msg, now)])
  }

  /** The records observed in order, all at the same time `now`. */
  function Walk(s: PollState, records: seq<IfMsg>, now: real, names: NameTable): PollState
    decreases |records|
  {
    if records == [] then s
    else Observe(Walk(s, records[..|records| - 1], now, names), records[|records| - 1], now, names)
  }

  /** One poll over a table: start with no samples and walk every record. */
  function Poll(snapshots: map<string, InterfaceSnapshot>, records: seq<IfMsg>, now: real, names: NameTable): PollState
  {
    Walk(PollState(snapshots, map[]), records, now, names)
  }

  // ---------------------------------------------------------------------------
  // The receiver
  // ---------------------------------------------------------------------------

  class NetTrafficStatReceiver {
    var snapshots: map<string, InterfaceSnapshot>

    constructor ()
      ensures snapshots == map[]
    {
      snapshots := map[];
    }

    /** Forget every baseline. */
    method Reset()
      modifies this
      ensures snapshots == map[]
    {
      snapshots := map[];
    }

    /**
      One poll: the sizing stage, the fetch stage, then the walk over the
      fetched table. A failing stage throws and leaves the snapshots alone;
      an empty table gives no samples; otherwise the samples and the new
      snapshots are those of `Poll`.
    */
    method FetchStats(sizing: SysctlReply<nat>, fetch: SysctlReply<RouteTable>, now: real, names: NameTable)
      returns (r: Result<map<string, NetTrafficStat>, SysctlError>)
      requires fetch.Replied? ==> Framed(fetch.value)
      modifies this
      ensures sizing.Errno? ==>
        r == Failure(UnableToQuery(sizing.code)) && snapshots == old(snapshots)
      ensures sizing.Replied? && fetch.Errno? ==>
        r == Failure(UnableToFetch(fetch.code)) && snapshots == old(snapshots)
      ensures sizing.Replied? && fetch.Replied? && fetch.value.dataLength == 0 ==>
        r == Success(map[]) && snapshots == old(snapshots)
      ensures sizing.Replied? && fetch.Replied? ==>
        var after := Poll(old(snapshots), fetch.value.records, now, names);
        r == Success(after.stats) && snapshots == after.snapshots
    {
      if sizing.Errno? {
        return Failure(UnableToQuery(sizing.code));
      }
      if fetch.Errno? {
        return Failure(UnableToFetch(fetch.code));
      }
      var dataLength := fetch.value.dataLength;
      var records := fetch.value.records;
      PrefixLengthBelowTotal(records, 0);
      if dataLength == 0 {
        return Success(map[]);
      }

      ghost var before := snapshots;
      var latestStats: map<string, NetTrafficStat> := map[];
      var cursor := 0;
      var i := 0;
      PrefixLengthBelowTotal(records, |records|);
      while cursor < dataLength
        invariant 0 <= i <= |records|
        invariant cursor == TotalLength(records[..i])
        invariant i == |records| ==> cursor == dataLength
        invariant PollState(snapshots, latestStats) == Walk(PollState(before, map[]), records[..i], now, names)
        decreases |records| - i
      {
        var message := records[i];
        var messageLength := message.msgLen;
        assert records[..i + 1][..i] == records[..i];
        assert records[..i + 1][i] == message;

        if message.msgType == RTM_IFINFO {
          var isLoopback := message.flags & IFF_LOOPBACK != 0;
          var isUp := message.flags & IFF_UP != 0;
          if !isLoopback && isUp && message.index in names {
            var interfaceName := names[message.index];
            if interfaceName != "" {
              if interfaceName in snapshots {
                var previous := snapshots[interfaceName];
                var deltaTime := now - previous.timestamp;
                var inboundDelta := DeltaBytes(message.inboundBytes, previous.inboundBytes);
                var outboundDelta := DeltaBytes(message.outboundBytes, previous.outboundBytes);
                var speeds := ComputeSpeeds(deltaTime, inboundDelta, outboundDelta);
                latestStats := latestStats[interfaceName := NetTrafficStat(
                  now, deltaTime, inboundDelta, outboundDelta, speeds.inbound, speeds.outbound)];
                snapshots := snapshots[interfaceName := InterfaceSnapshot(
                  now, message.inboundBytes, message.outboundBytes)];
              } else {
                snapshots := snapshots[interfaceName := InterfaceSnapshot(
                  now, message.inboundBytes, message.outboundBytes)];
                latestStats := latestStats[interfaceName := NetTrafficStat(now, 0.0, 0, 0, 0.0, 0.0)];
              }
            }
          }
        }

        cursor := cursor + messageLength;
        i := i + 1;
      }
      PrefixLengthBelowTotal(records, i);
      assert records[..i] == records;
      return Success(latestStats);
    }

    /** The caller's entry point: the samples of a poll, or no samples when it fails. */
    method GetNetTrafficStatMap(sizing: SysctlReply<nat>, fetch: SysctlReply<RouteTable>, now: real, names: NameTable)
      returns (stats: map<string, NetTrafficStat>)
      requires fetch.Replied? ==> Framed(fetch.value)
      modifies this
      ensures (sizing.Errno? || fetch.Errno?) ==> stats == map[] && snapshots == old(snapshots)
      ensures sizing.Replied? && fetch.Replied? ==>
        var after := Poll(old(snapshots), fetch.value.records, now, names);
        stats == after.stats && snapshots == after.snapshots
    {
      var result := FetchStats(sizing, fetch, now, names);
      match result
      case Success(s) => stats := s;
      case Failure(_) => stats := map[];
    }
  }
}
