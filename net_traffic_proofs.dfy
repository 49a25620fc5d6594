/**
  What one poll of `NetTrafficStatReceiver` does to its snapshots and what it
  reports, stated over the specification `Walk`/`Poll` that the receiver's
  `FetchStats` is proved to follow.
*/
module NetTrafficProofs {
  import opened Wrappers
  import opened NetTraffic

  /** The names under which some record of `records` is sampled. */
  function AcceptedNames(records: seq<IfMsg>, names: NameTable): (r: set<string>)
    ensures forall n :: n in r <==>
      exists j :: 0 <= j < |records| && InterfaceName(records[j], names) == Some(n)
    decreases |records|
  {
    if records == [] then {}
    else
      var front := records[..|records| - 1];
      var rest := AcceptedNames(front, names);
      assert forall j :: 0 <= j < |front| ==> front[j] == records[j];
      match InterfaceName(records[|records| - 1], names)
      case None => rest
      case Some(name) => rest + {name}
  }

  /** The records that pass every filter, in their original order. */
  function Kept(records: seq<IfMsg>, names: NameTable): (r: seq<IfMsg>)
    ensures |r| <= |records|
    ensures forall k :: 0 <= k < |r| ==> InterfaceName(r[k], names).Some?
    decreases |records|
  {
    if records == [] then []
    else
      var front := Kept(records[..|records| - 1], names);
      var last := records[|records| - 1];
      if InterfaceName(last, names).Some? then front + [last] else front
  }

  /** No two records of the table are sampled under the same name. */
  predicate UniqueNames(records: seq<IfMsg>, names: NameTable)
  {
    forall a, b :: 0 <= a < b < |records| && InterfaceName(records[a], names).Some? ==>
      InterfaceName(records[a], names) != InterfaceName(records[b], names)
  }

  /**
    A poll adds exactly the accepted names to the snapshot keys and to the
    sample keys; it never removes a snapshot.
  */
  lemma {:induction false} WalkKeys(s: PollState, records: seq<IfMsg>, now: real, names: NameTable)
    ensures Walk(s, records, now, names).snapshots.Keys == s.snapshots.Keys + AcceptedNames(records, names)
    ensures Walk(s, records, now, names).stats.Keys == s.stats.Keys + AcceptedNames(records, names)
    decreases |records|
  {
    if records != [] {
      WalkKeys(s, records[..|records| - 1], now, names);
    }
  }

  /**
    An interface that no record of the poll is sampled under keeps its
    snapshot (or its absence) and its sample (or its absence).
  */
  lemma {:induction false} WalkLeavesOthersAlone(
    s: PollState, records: seq<IfMsg>, now: real, names: NameTable, name: string)
    requires name !in AcceptedNames(records, names)
    ensures var w := Walk(s, records, now, names);
      && (name in w.snapshots <==> name in s.snapshots)
      && (name in s.snapshots ==> w.snapshots[name] == s.snapshots[name])
      && (name in w.stats <==> name in s.stats)
      && (name in s.stats ==> w.stats[name] == s.stats[name])
    decreases |records|
  {
    if records != [] {
      var front := records[..|records| - 1];
      assert forall j :: 0 <= j < |front| ==> front[j] == records[j];
      WalkLeavesOthersAlone(s, front, now, names, name);
      assert InterfaceName(records[|records| - 1], names) != Some(name);
    }
  }

  /** Records the filters drop have no effect at all: walking only the kept ones is the same. */
  lemma {:induction false} SkippedRecordsAreInert(s: PollState, records: seq<IfMsg>, now: real, names: NameTable)
    ensures Walk(s, records, now, names) == Walk(s, Kept(records, names), now, names)
    decreases |records|
  {
    if records != [] {
      var front := records[..|records| - 1];
      var last := records[|records| - 1];
      SkippedRecordsAreInert(s, front, now, names);
      if InterfaceName(last, names).Some? {
        var kept := Kept(front, names) + [last];
        assert kept[..|kept| - 1] == Kept(front, names);
      }
    }
  }

  /**
    With unique names, each accepted record's interface gets the sample of
    that record against the snapshot it had before the poll (a zero sample
    on first sighting), and its snapshot becomes the record's counters at
    the poll's time.
  */
  lemma {:induction false} SampleOfEachInterface(
    s: PollState, records: seq<IfMsg>, now: real, names: NameTable, k: nat)
    requires UniqueNames(records, names)
    requires k < |records| && InterfaceName(records[k], names).Some?
    ensures var name := InterfaceName(records[k], names).value;
      var w := Walk(s, records, now, names);
      var previous := if name in s.snapshots then Some(s.snapshots[name]) else None;
      && name in w.snapshots && w.snapshots[name] == SnapshotOf(records[k], now)
      && name in w.stats && w.stats[name] == Sample(previous, records[k], now)
    decreases |records|
  {
    var name := InterfaceName(records[k], names).value;
    var front := records[..|records| - 1];
    var last := records[|records| - 1];
    assert forall j :: 0 <= j < |front| ==> front[j] == records[j];
    if k == |records| - 1 {
      forall j | 0 <= j < |front|
        ensures InterfaceName(front[j], names) != Some(name)
      {
        assert InterfaceName(records[j], names) != InterfaceName(records[k], names);
      }
      WalkLeavesOthersAlone(s, front, now, names, name);
    } else {
      assert UniqueNames(front, names);
      SampleOfEachInterface(s, front, now, names, k);
      assert InterfaceName(last, names) != Some(name);
    }
  }

  /**
    Soundness of a poll's state at time `now`: no snapshot is newer than
    `now`, and every sample is stamped `now` with a non-negative interval.
  */
  ghost predicate Sound(s: PollState, now: real)
  {
    && (forall n :: n in s.snapshots ==> s.snapshots[n].timestamp <= now)
    && (forall n :: n in s.stats ==> s.stats[n].timestamp == now && s.stats[n].deltaTime >= 0.0)
  }

  lemma {:induction false} WalkKeepsSound(s: PollState, records: seq<IfMsg>, now: real, names: NameTable)
    requires Sound(s, now)
    ensures Sound(Walk(s, records, now, names), now)
    decreases |records|
  {
    if records != [] {
      WalkKeepsSound(s, records[..|records| - 1], now, names);
    }
  }

  /**
    When no snapshot is newer than the poll's clock reading, every sample of
    the poll has a non-negative interval, carries the poll's time, and
    reports non-negative rates no larger than 1000 times its deltas; the new
    snapshots are again no newer than `now`.
  */
  lemma PollIsSound(snapshots: map<string, InterfaceSnapshot>, records: seq<IfMsg>, now: real, names: NameTable)
    requires forall n :: n in snapshots ==> snapshots[n].timestamp <= now
    ensures var p := Poll(snapshots, records, now, names);
      && (forall n :: n in p.snapshots ==> p.snapshots[n].timestamp <= now)
      && (forall n :: n in p.stats ==>
            && p.stats[n].timestamp == now
            && p.stats[n].deltaTime >= 0.0
            && 0.0 <= p.stats[n].inboundBytesPerSecond <= 1000.0 * p.stats[n].deltaInboundBytes as real
            && 0.0 <= p.stats[n].outboundBytesPerSecond <= 1000.0 * p.stats[n].deltaOutboundBytes as real)
  {
    WalkKeepsSound(PollState(snapshots, map[]), records, now, names);
    var p := Poll(snapshots, records, now, names);
    forall n | n in p.stats
      ensures 0.0 <= p.stats[n].inboundBytesPerSecond <= 1000.0 * p.stats[n].deltaInboundBytes as real
      ensures 0.0 <= p.stats[n].outboundBytesPerSecond <= 1000.0 * p.stats[n].deltaOutboundBytes as real
    {
      WalkEmitsSamples(PollState(snapshots, map[]), records, now, names, n);
    }
  }

  /** Every sample in a walk's result is a `Sample` of some record, or was already there. */
  lemma {:induction false} WalkEmitsSamples(s: PollState, records: seq<IfMsg>, now: real, names: NameTable, n: string)
    requires n in Walk(s, records, now, names).stats
    ensures var w := Walk(s, records, now, names);
      (n in s.stats && w.stats[n] == s.stats[n]) ||
      exists k, previous :: 0 <= k < |records| && w.stats[n] == Sample(previous, records[k], now)
    decreases |records|
  {
    if records != [] {
      var front := records[..|records| - 1];
      var last := records[|records| - 1];
      var w := Walk(s, records, now, names);
      var wf := Walk(s, front, now, names);
      if InterfaceName(last, names) == Some(n) {
        var previous := if n in wf.snapshots then Some(wf.snapshots[n]) else None;
        assert w.stats[n] == Sample(previous, records[|records| - 1], now);
      } else {
        WalkEmitsSamples(s, front, now, names, n);
        if !(n in s.stats && w.stats[n] == s.stats[n]) {
          var k, previous :| 0 <= k < |front| && wf.stats[n] == Sample(previous, front[k], now);
          assert w.stats[n] == Sample(previous, records[k], now);
        }
      }
    }
  }

  /**
    A poll with no baselines (a new or just reset receiver) reports every
    accepted interface, and only those, with a zero sample, and seeds a
    snapshot for each of them.
  */
  lemma FirstPollReportsZero(records: seq<IfMsg>, now: real, names: NameTable)
    requires UniqueNames(records, names)
    ensures var p := Poll(map[], records, now, names);
      && p.stats.Keys == AcceptedNames(records, names)
      && p.snapshots.Keys == AcceptedNames(records, names)
      && (forall n :: n in p.stats ==> p.stats[n] == ZeroStat(now))
  {
    var s := PollState(map[], map[]);
    var p := Poll(map[], records, now, names);
    WalkKeys(s, records, now, names);
    forall n | n in p.stats
      ensures p.stats[n] == ZeroStat(now)
    {
      var k :| 0 <= k < |records| && InterfaceName(records[k], names) == Some(n);
      SampleOfEachInterface(s, records, now, names, k);
    }
  }

  /**
    An interface that reappears more than 60 s after its snapshot reports
    zero rates, whatever its byte deltas, and is re-baselined at `now`.
  */
  lemma StaleReappearanceReportsZeroRates(
    snapshots: map<string, InterfaceSnapshot>, records: seq<IfMsg>, now: real, names: NameTable, k: nat)
    requires UniqueNames(records, names)
    requires k < |records| && InterfaceName(records[k], names).Some?
    requires var name := InterfaceName(records[k], names).value;
      name in snapshots && now - snapshots[name].timestamp > STALE_AFTER_SECONDS
    ensures var name := InterfaceName(records[k], names).value;
      var p := Poll(snapshots, records, now, names);
      && name in p.stats
      && p.stats[name].inboundBytesPerSecond == 0.0
      && p.stats[name].outboundBytesPerSecond == 0.0
      && p.stats[name].deltaInboundBytes == DeltaBytes(records[k].inboundBytes, snapshots[name].inboundBytes)
      && p.stats[name].deltaOutboundBytes == DeltaBytes(records[k].outboundBytes, snapshots[name].outboundBytes)
      && name in p.snapshots && p.snapshots[name] == SnapshotOf(records[k], now)
  {
    SampleOfEachInterface(PollState(snapshots, map[]), records, now, names, k);
  }

  // ---------------------------------------------------------------------------
  // Scenarios driven through the receiver itself
  // ---------------------------------------------------------------------------

  /** The only index the scenarios resolve, to "en0". */
  const EN0_INDEX: nat := 4

  function En0(up: bool, inbound: UInt64, outbound: UInt64): IfMsg
  {
    IfMsg(112, RTM_IFINFO, if up then IFF_UP else 0, EN0_INDEX, inbound, outbound)
  }

  /**
    A counter that advanced by `n` bytes without wrapping, sampled `elapsed`
    seconds after its snapshot (between 1 ms and 60 s), reports a delta of
    `n` at `n / elapsed` bytes per second; over one second that is `n` B/s.
  */
  lemma SteadyAdvanceRate(previous: InterfaceSnapshot, msg: IfMsg, elapsed: real, n: UInt64)
    requires MIN_INTERVAL_SECONDS <= elapsed <= STALE_AFTER_SECONDS
    requires msg.inboundBytes == previous.inboundBytes + n
    ensures var stat := Sample(Some(previous), msg, previous.timestamp + elapsed);
      && stat.deltaTime == elapsed
      && stat.deltaInboundBytes == n
      && stat.inboundBytesPerSecond * elapsed == n as real
      && (elapsed == 1.0 ==> stat.inboundBytesPerSecond == n as real)
  {
  }

  /**
    Two records resolving to the same name in one poll (the kernel lists each
    interface once, but the walk does not check it): the second is measured
    against the snapshot the first has just written, so its interval is 0 and
    its rate is 1000 times its delta.
  */
  lemma DuplicateNameScenario(now: real)
    ensures var p := Poll(map[], [En0(true, 100, 0), En0(true, 150, 0)], now, map[EN0_INDEX := "en0"]);
      "en0" in p.stats && p.stats["en0"] == NetTrafficStat(now, 0.0, 50, 0, 50000.0, 0.0)
  {
    var a, b := En0(true, 100, 0), En0(true, 150, 0);
    assert [a, b][..1] == [a];
    assert [a][..0] == [];
  }

  /** A fetched table holding the one record `msg`. */
  function OneRecordTable(msg: IfMsg): SysctlReply<RouteTable>
  {
    Replied(RouteTable(msg.msgLen, [msg]))
  }

  lemma OneRecordTableIsFramed(msg: IfMsg)
    requires msg.msgLen > 0
    ensures Framed(OneRecordTable(msg).value)
  {
    assert [msg][..0] == [];
  }

  /**
    en0 seen at t=0 with 1000/500 bytes and at t=1 with 2500/1200: the first
    poll seeds a zero sample, the second reports 1500 and 700 bytes over one
    second.
  */
  method TwoPollScenario() returns (first: NetTrafficStat, second: NetTrafficStat)
    ensures first == ZeroStat(0.0)
    ensures second == NetTrafficStat(1.0, 1.0, 1500, 700, 1500.0, 700.0)
  {
    var names := map[EN0_INDEX := "en0"];
    var receiver := new NetTrafficStatReceiver();
    var m0, m1 := En0(true, 1000, 500), En0(true, 2500, 1200);
    OneRecordTableIsFramed(m0);
    OneRecordTableIsFramed(m1);
    assert [m0][..0] == [] && [m1][..0] == [];
    var stats0 := receiver.GetNetTrafficStatMap(Replied(112), OneRecordTable(m0), 0.0, names);
    first := stats0["en0"];
    var stats1 := receiver.GetNetTrafficStatMap(Replied(112), OneRecordTable(m1), 1.0, names);
    second := stats1["en0"];
  }

  /** The inbound counter wraps from 2^64 - 1 to 50 within one second: 51 bytes. */
  method WrapScenario() returns (stat: NetTrafficStat)
    ensures stat.deltaInboundBytes == 51 && stat.inboundBytesPerSecond == 51.0
  {
    var names := map[EN0_INDEX := "en0"];
    var receiver := new NetTrafficStatReceiver();
    var m0, m1 := En0(true, UINT64_MAX, 0), En0(true, 50, 0);
    OneRecordTableIsFramed(m0);
    OneRecordTableIsFramed(m1);
    assert [m0][..0] == [] && [m1][..0] == [];
    var stats0 := receiver.GetNetTrafficStatMap(Replied(112), OneRecordTable(m0), 0.0, names);
    var stats1 := receiver.GetNetTrafficStatMap(Replied(112), OneRecordTable(m1), 1.0, names);
    stat := stats1["en0"];
  }

  /**
    en0 is sampled at t=0, is down (and so filtered out) at t=30 and t=60,
    and is back at t=120: the byte deltas are reported but the rates are
    zero, and the polls where it was down reported nothing for it.
  */
  method StaleScenario() returns (missing30: bool, missing60: bool, stat: NetTrafficStat)
    ensures missing30 && missing60
    ensures stat == NetTrafficStat(120.0, 120.0, 9000, 4000, 0.0, 0.0)
  {
    var names := map[EN0_INDEX := "en0"];
    var receiver := new NetTrafficStatReceiver();
    var up0, down, up120 := En0(true, 1000, 1000), En0(false, 5000, 2000), En0(true, 10000, 5000);
    OneRecordTableIsFramed(up0);
    OneRecordTableIsFramed(down);
    OneRecordTableIsFramed(up120);
    assert [up0][..0] == [] && [down][..0] == [] && [up120][..0] == [];
    var stats := receiver.GetNetTrafficStatMap(Replied(112), OneRecordTable(up0), 0.0, names);
    stats := receiver.GetNetTrafficStatMap(Replied(112), OneRecordTable(down), 30.0, names);
    missing30 := "en0" !in stats;
    stats := receiver.GetNetTrafficStatMap(Replied(112), OneRecordTable(down), 60.0, names);
    missing60 := "en0" !in stats;
    stats := receiver.GetNetTrafficStatMap(Replied(112), OneRecordTable(up120), 120.0, names);
    stat := stats["en0"];
  }

  /**
    A poll whose fetch stage fails reports nothing and keeps the baseline:
    the next successful poll measures from the last good one.
  */
  method FailedPollScenario() returns (failed: map<string, NetTrafficStat>, stat: NetTrafficStat)
    ensures failed == map[]
    ensures stat == NetTrafficStat(2.0, 2.0, 3000, 0, 1500.0, 0.0)
  {
    var names := map[EN0_INDEX := "en0"];
    var receiver := new NetTrafficStatReceiver();
    var m0, m2 := En0(true, 1000, 0), En0(true, 4000, 0);
    OneRecordTableIsFramed(m0);
    OneRecordTableIsFramed(m2);
    assert [m0][..0] == [] && [m2][..0] == [];
    var stats := receiver.GetNetTrafficStatMap(Replied(112), OneRecordTable(m0), 0.0, names);
    failed := receiver.GetNetTrafficStatMap(Replied(112), Errno(12), 1.0, names);
    stats := receiver.GetNetTrafficStatMap(Replied(112), OneRecordTable(m2), 2.0, names);
    stat := stats["en0"];
  }

  /**
    After `Reset`, a poll reports exactly what a new receiver's first poll
    of the same table reports.
  */
  method ResetScenario(earlier: RouteTable, later: RouteTable, t0: real, t1: real, names: NameTable)
    returns (stats: map<string, NetTrafficStat>)
    requires Framed(earlier) && Framed(later)
    ensures stats == Poll(map[], later.records, t1, names).stats
  {
    var receiver := new NetTrafficStatReceiver();
    var _ := receiver.GetNetTrafficStatMap(Replied(earlier.dataLength), Replied(earlier), t0, names);
    receiver.Reset();
    stats := receiver.GetNetTrafficStatMap(Replied(later.dataLength), Replied(later), t1, names);
  }
}
