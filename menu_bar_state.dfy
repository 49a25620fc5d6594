/**
  The settings enums of the menu bar and its rolling window of the last five
  latency values appended.
*/
module MenuBar {
  import opened Wrappers

  // ---------------------------------------------------------------------------
  // Decimal text, for the interval names
  // ---------------------------------------------------------------------------

  function DigitChar(d: nat): (c: char)
    requires d < 10
  {
    "0123456789"[d]
  }

  /** The decimal digits of `n`, most significant first, without leading zeros. */
  function Decimal(n: nat): string
    decreases n
  {
    if n < 10 then [DigitChar(n)] else Decimal(n / 10) + [DigitChar(n % 10)]
  }

  // ---------------------------------------------------------------------------
  // Update interval
  // ---------------------------------------------------------------------------

  datatype NetSpeedUpdateInterval = Sec1 | Sec2 | Sec5 | Sec10 | Sec30

  /** The interval's raw value: its length in seconds. */
  function IntervalRawValue(i: NetSpeedUpdateInterval): (r: nat)
    ensures r > 0
  {
    match i
    case Sec1 => 1
    case Sec2 => 2
    case Sec5 => 5
    case Sec10 => 10
    case Sec30 => 30
  }

  /**
    The interval with a given raw value (Swift's `init?(rawValue:)`): defined
    exactly on 1, 2, 5, 10 and 30, and the inverse of `IntervalRawValue`.
  */
  function IntervalFromRawValue(raw: int): (r: Option<NetSpeedUpdateInterval>)
    ensures r.Some? <==> raw in {1, 2, 5, 10, 30}
    ensures r.Some? ==> IntervalRawValue(r.value) == raw
    ensures r.None? ==> forall i :: IntervalRawValue(i) != raw
  {
    if raw == 1 then Some(Sec1)
    else if raw == 2 then Some(Sec2)
    else if raw == 5 then Some(Sec5)
    else if raw == 10 then Some(Sec10)
    else if raw == 30 then Some(Sec30)
    else None
  }

  lemma IntervalRawValueRoundTrip(i: NetSpeedUpdateInterval)
    ensures IntervalFromRawValue(IntervalRawValue(i)) == Some(i)
  {
  }

  /** The menu label of an interval: its raw value in decimal, then "s". */
  function IntervalDisplayName(i: NetSpeedUpdateInterval): (r: string)
    ensures r == Decimal(IntervalRawValue(i)) + "s"
  {
    match i
    case Sec1 => "1s"
    case Sec2 => "2s"
    case Sec5 => "5s"
    case Sec10 => "10s"
    case Sec30 => "30s"
  }

  // ---------------------------------------------------------------------------
  // Speed unit
  // ---------------------------------------------------------------------------

  datatype SpeedUnit = Bits | Bytes

  function UnitRawValue(u: SpeedUnit): (r: string)
  {
    match u
    case Bits => "bits"
    case Bytes => "bytes"
  }

  /** The unit with a given raw value: defined on "bits" and "bytes" only, the inverse of `UnitRawValue`. */
  function UnitFromRawValue(raw: string): (r: Option<SpeedUnit>)
    ensures r.Some? <==> raw in {"bits", "bytes"}
    ensures r.Some? ==> UnitRawValue(r.value) == raw
    ensures r.None? ==> forall u :: UnitRawValue(u) != raw
  {
    if raw == "bits" then Some(Bits)
    else if raw == "bytes" then Some(Bytes)
    else None
  }

  lemma UnitRawValueRoundTrip(u: SpeedUnit)
    ensures UnitFromRawValue(UnitRawValue(u)) == Some(u)
  {
  }

  function UpperCase(c: char): char
  {
    if 'a' <= c <= 'z' then (c as int - 'a' as int + 'A' as int) as char else c
  }

  /** `s` with its first letter made upper case. */
  function Capitalized(s: string): string
  {
    if s == [] then [] else [UpperCase(s[0])] + s[1..]
  }

  /** The menu label of a unit: its capitalized raw value, per second. */
  function UnitDisplayName(u: SpeedUnit): (r: string)
    ensures r == Capitalized(UnitRawValue(u)) + "/s"
  {
    match u
    case Bits => "Bits/s"
    case Bytes => "Bytes/s"
  }

  /** Bits in a byte. */
  const BITS_PER_BYTE: real := 8.0

  /** How many of the unit one byte is: eight bits, or one byte. */
  function Multiplier(u: SpeedUnit): (r: real)
    ensures r >= 1.0
    ensures u == Bits ==> r == BITS_PER_BYTE
    ensures u == Bytes ==> r == 1.0
  {
    match u
    case Bits => 8.0
    case Bytes => 1.0
  }

  /** The one-letter symbol of the unit: lower-case "b" for bits, upper-case "B" for bytes. */
  function ShortUnit(u: SpeedUnit): (r: string)
    ensures |r| == 1
    ensures u == Bits ==> r == [UnitRawValue(u)[0]]
    ensures u == Bytes ==> r == [UpperCase(UnitRawValue(u)[0])]
  {
    match u
    case Bits => "b"
    case Bytes => "B"
  }

  /** A rate of `bytesPerSecond` expressed in unit `u`: bytes times the multiplier. */
  function RateIn(bytesPerSecond: real, u: SpeedUnit): real
  {
    bytesPerSecond * Multiplier(u)
  }

  /**
    Bits are eight to the byte, bytes one: the same rate reads eight times
    larger in bits. The symbols "b" and "B" tell the units apart.
  */
  lemma UnitConversion(bytesPerSecond: real)
    ensures Multiplier(Bits) == 8.0 && Multiplier(Bytes) == 1.0
    ensures RateIn(bytesPerSecond, Bytes) == bytesPerSecond
    ensures RateIn(bytesPerSecond, Bits) == 8.0 * RateIn(bytesPerSecond, Bytes)
    ensures ShortUnit(Bits) == "b" && ShortUnit(Bytes) == "B"
    ensures forall u, v :: ShortUnit(u) == ShortUnit(v) ==> u == v
  {
  }

  // ---------------------------------------------------------------------------
  // Latency history
  // ---------------------------------------------------------------------------

  /** How many latency values the quality estimate looks at. */
  const LATENCY_WINDOW: nat := 5

  /**
    The history after one more latency value: appended as the newest (last)
    element; when that makes six, only the oldest (first) is dropped and the
    rest keep their order.
  */
  function WindowAfter(history: seq<real>, latency: real): (r: seq<real>)
    ensures |r| > 0 && r[|r| - 1] == latency
    ensures |history| <= LATENCY_WINDOW ==> |r| <= LATENCY_WINDOW
    ensures |history| < LATENCY_WINDOW ==> r == history + [latency]
    ensures |history| >= LATENCY_WINDOW ==> r == history[1..] + [latency]
  {
    var appended := history + [latency];
    if |appended| > LATENCY_WINDOW then appended[1..] else appended
  }

  /** The history built from an empty one by the values appended, in order. */
  function HistoryOf(latencies: seq<real>): seq<real>
    decreases |latencies|
  {
    if latencies == [] then []
    else WindowAfter(HistoryOf(latencies[..|latencies| - 1]), latencies[|latencies| - 1])
  }

  function Min(a: nat, b: nat): nat
  {
    if a <= b then a else b
  }

  /** The history always holds exactly the last five values appended (all of them while there are fewer). */
  lemma {:induction false} HistoryIsLastFive(latencies: seq<real>)
    ensures HistoryOf(latencies) == latencies[|latencies| - Min(LATENCY_WINDOW, |latencies|)..]
    decreases |latencies|
  {
    if latencies != [] {
      var n := |latencies|;
      var front := latencies[..n - 1];
      HistoryIsLastFive(front);
      var h := HistoryOf(front);
      assert h == front[|front| - Min(LATENCY_WINDOW, |front|)..];
      if |front| < LATENCY_WINDOW {
        assert h + [latencies[n - 1]] == latencies[n - Min(LATENCY_WINDOW, n)..];
      } else {
        assert h[1..] + [latencies[n - 1]] == latencies[n - Min(LATENCY_WINDOW, n)..];
      }
    }
  }

  /** What the quality column gets: a placeholder without a measurement, else the window it is scored from. */
  datatype QualityReport = Placeholder(text: string) | Scored(window: seq<real>)

  const NO_QUALITY_TEXT: string := "---"

  class MenuBarState {
    var latencyMs: Option<real>
    var latencyHistory: seq<real>

    constructor ()
      ensures latencyMs == None && latencyHistory == []
    {
      latencyMs := None;
      latencyHistory := [];
    }

    /**
      Without a latency measurement: the placeholder, history untouched.
      With one: it enters the window, and the window is what is scored.
    */
    method GetNetworkQuality() returns (report: QualityReport)
      modifies this`latencyHistory
      ensures latencyMs.None? ==>
        report == Placeholder(NO_QUALITY_TEXT) && latencyHistory == old(latencyHistory)
      ensures latencyMs.Some? ==>
        && latencyHistory == WindowAfter(old(latencyHistory), latencyMs.value)
        && report == Scored(latencyHistory)
      ensures |old(latencyHistory)| <= LATENCY_WINDOW ==> |latencyHistory| <= LATENCY_WINDOW
      ensures latencyMs.Some? ==> latencyHistory[|latencyHistory| - 1] == latencyMs.value
    {
      if latencyMs.None? {
        return Placeholder(NO_QUALITY_TEXT);
      }
      var currentLatency := latencyMs.value;
      latencyHistory := latencyHistory + [currentLatency];
      if |latencyHistory| > LATENCY_WINDOW {
        latencyHistory := latencyHistory[1..];
      }
      report := Scored(latencyHistory);
    }
  }
}
