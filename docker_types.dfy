/**
 * The value types of the docker package (internal/docker/types.go): containers,
 * their stat samples and lifecycle events, log events, and the two small
 * string enumerations (container actions and log positions) with their
 * validator and predicates.
 */
module Docker {
  import opened Wrappers
  import opened GoTypes

  /** A wall-clock instant as Go's time.Time exposes it: Unix seconds and a nanosecond part. */
  datatype Time = Time(unixSeconds: int, nanos: int)

  /** `time.Time{}`, midnight of January 1 of year 1, UTC, in Unix seconds. */
  const ZeroTime: Time := Time(-62135596800, 0)

  /** One resource sample; the three percentages and byte count are opaque floats. */
  datatype ContainerStat = ContainerStat(
    id: string,
    cpuPercent: Float64,
    memoryPercent: Float64,
    memoryUsage: Float64)

  /**
   * A container as the store holds it. `stats` is the ring buffer's `Data()`
   * snapshot, oldest first; the ring buffer itself is not part of this model.
   */
  datatype Container = Container(
    id: string,
    name: string,
    image: string,
    imageId: string,
    command: string,
    created: Time,
    startedAt: Time,
    state: string,
    health: string,
    host: string,
    tty: bool,
    labels: map<string, string>,
    stats: seq<ContainerStat>,
    group: string)

  /** A lifecycle notification. */
  datatype ContainerEvent = ContainerEvent(actorId: string, name: string, host: string)

  /** The host metadata the runtime client reports (its `NCPU` is a Go `int`). */
  datatype Host = Host(id: string, name: string, nCPU: int, memTotal: int64, dockerVersion: string)

  type LogPosition = string

  const Beginning: LogPosition := "start"
  const Middle: LogPosition := "middle"
  const End: LogPosition := "end"

  /**
   * The payload of a log event: either the plain text of the line, or the
   * top-level JSON object as an ordered list of key/value pairs (key order as
   * in the source line). V stands for the value type of the ordered map.
   */
  datatype Message<V> = Text(text: string) | Fields(entries: seq<(string, V)>)

  datatype LogEvent<V> = LogEvent(
    message: Message<V>,
    timestamp: int64,
    id: uint32,
    level: string,
    position: LogPosition,
    stream: string,
    containerId: string)

  type ContainerAction = string

  const Start: ContainerAction := "start"
  const Stop: ContainerAction := "stop"
  const Restart: ContainerAction := "restart"

  /** Go's `(ContainerAction, error)` result of ParseContainerAction. */
  datatype ParsedAction = ParsedAction(action: ContainerAction, err: Option<string>)

  /** The action names the runtime accepts, compared exactly (case matters). */
  predicate IsKnownAction(s: string) {
    s == Start || s == Stop || s == Restart
  }

  /**
   * Whitelists the three action names: a known name comes back unchanged with
   * no error; anything else yields the empty action and an error naming the input.
   */
  function ParseContainerAction(input: string): (r: ParsedAction)
    ensures r.err.None? <==> IsKnownAction(input)
    ensures r.err.None? ==> r.action == input
    ensures r.err.Some? ==> r.action == "" && r.err.value == "unknown action: " + input
  {
    match input
    case "start" => ParsedAction(input, None)
    case "stop" => ParsedAction(input, None)
    case "restart" => ParsedAction(input, None)
    case _ => ParsedAction("", Some("unknown action: " + input))
  }

  /** A log event carries a level exactly when its level text is non-empty. */
  predicate HasLevel<V>(l: LogEvent<V>)
    ensures HasLevel(l) <==> |l.level| > 0
  {
    l.level != ""
  }

  /**
   * `math.Abs(float64(l.Timestamp - other.Timestamp)) < 10`. The int64
   * subtraction wraps; converting the wrapped difference w to float64 rounds
   * monotonically and 10 is exact, so the float comparison has the same
   * outcome as the integer test |w| < 10, which is what is modelled here.
   */
  predicate IsCloseToTime<V>(l: LogEvent<V>, other: LogEvent<V>)
    ensures l.timestamp == other.timestamp ==> IsCloseToTime(l, other)
    ensures -TwoTo63 <= l.timestamp as int - other.timestamp as int < TwoTo63 ==>
      (IsCloseToTime(l, other) <==> -10 < l.timestamp as int - other.timestamp as int < 10)
  {
    Abs(Wrap64(l.timestamp as int - other.timestamp as int) as int) < 10
  }

  function Abs(x: int): (r: nat)
    ensures r == x || r == -x
  {
    if x < 0 then -x else x
  }

  // ----- Properties -----

  /** Each constant action parses back to itself with no error. */
  lemma ParseRoundTrip(a: ContainerAction)
    requires a in {Start, Stop, Restart}
    ensures ParseContainerAction(a) == ParsedAction(a, None)
  {
  }

  /** The empty string and case variants are rejected with the empty action. */
  lemma ParseRejectsVariants()
    ensures ParseContainerAction("") == ParsedAction("", Some("unknown action: "))
    ensures ParseContainerAction("Start").err.Some? && ParseContainerAction("Start").action == ""
    ensures ParseContainerAction("STOP").err.Some? && ParseContainerAction("STOP").action == ""
    ensures ParseContainerAction("Restart").err.Some? && ParseContainerAction("Restart").action == ""
  {
    assert "unknown action: " + "" == "unknown action: ";
  }

  /** The three position tags are pairwise distinct. */
  lemma PositionsDistinct()
    ensures Beginning != Middle && Middle != End && Beginning != End
  {
  }

  lemma HasLevelIffNonEmpty<V>(l: LogEvent<V>)
    ensures HasLevel(l) <==> |l.level| > 0
  {
  }

  /** Without int64 overflow, closeness is a strict distance bound of 10 seconds. */
  lemma CloseIffWithinTen<V>(l: LogEvent<V>, other: LogEvent<V>)
    requires -TwoTo63 <= l.timestamp as int - other.timestamp as int < TwoTo63
    ensures IsCloseToTime(l, other) <==> -10 < l.timestamp as int - other.timestamp as int < 10
  {
  }

  /** A difference of exactly ten seconds is not close. */
  lemma TenSecondsIsNotClose<V>(l: LogEvent<V>, other: LogEvent<V>)
    requires l.timestamp as int == other.timestamp as int + 10
    ensures !IsCloseToTime(l, other) && !IsCloseToTime(other, l)
  {
  }

  lemma CloseReflexive<V>(l: LogEvent<V>)
    ensures IsCloseToTime(l, l)
  {
  }

  /** Wrapping negation: the wrapped difference in one order is minus the other, or both are -2^63. */
  lemma WrapNegate(x: int)
    ensures Wrap64(-x) as int == -(Wrap64(x) as int) || Wrap64(-x) as int == Wrap64(x) as int == -TwoTo63
  {
    var m := x % TwoTo64;
    var n := (-x) % TwoTo64;
    assert m == 0 ==> n == 0;
    assert m != 0 ==> n == TwoTo64 - m;
  }

  /** Closeness is symmetric for every pair of int64 timestamps, overflow included. */
  lemma CloseSymmetric<V>(l: LogEvent<V>, other: LogEvent<V>)
    ensures IsCloseToTime(l, other) <==> IsCloseToTime(other, l)
  {
    WrapNegate(l.timestamp as int - other.timestamp as int);
  }

  /**
   * The subtraction is not widened before taking the distance: the latest and
   * the earliest representable timestamps, almost 2^64 seconds apart, count as close.
   */
  lemma CloseAcrossWrapAround<V>(l: LogEvent<V>, other: LogEvent<V>)
    requires l.timestamp as int == TwoTo63 - 1 && other.timestamp as int == -TwoTo63 + 5
    ensures IsCloseToTime(l, other)
  {
  }
}
