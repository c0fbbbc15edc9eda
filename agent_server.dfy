/**
 * The agent's gRPC server (internal/agent/server.go): how each request is
 * answered from the runtime client and the container store, reduced to the
 * conversions between local values and wire messages, the error taxonomy,
 * and the raw-bytes read/send loop. The client, the store and the output
 * stream are inputs: an answer value, a script of read results, a function
 * giving each send's outcome.
 */
module Agent {
  import opened Wrappers
  import opened GoTypes
  import Docker
  import Pb

  /**
   * What a server method returns as its error: a gRPC status with one of
   * three codes, or a collaborator's error passed through unchanged.
   */
  datatype RpcError = NotFound(msg: string) | InvalidArgument(msg: string) | Internal(msg: string) | Plain(msg: string)

  // ----- Per-item conversions -----

  /** `timestamppb.New`: the instant's seconds and nanoseconds. */
  function TimestampOf(t: Docker.Time): (r: Pb.Timestamp)
    ensures AsTime(r) == t
  {
    Pb.Timestamp(t.unixSeconds, t.nanos)
  }

  /** `Timestamp.AsTime`, the inverse of TimestampOf. */
  function AsTime(ts: Pb.Timestamp): Docker.Time {
    Docker.Time(ts.seconds, ts.nanos)
  }

  /** The stat conversion used by ListContainers and StreamStats. */
  function StatToPb(s: Docker.ContainerStat): (r: Pb.ContainerStat)
    ensures RestoreStat(r) == s
  {
    Pb.ContainerStat(s.id, s.cpuPercent, s.memoryPercent, s.memoryUsage)
  }

  function StatsToPb(stats: seq<Docker.ContainerStat>): (r: seq<Pb.ContainerStat>)
    ensures |r| == |stats| && RestoreStats(r) == stats
  {
    var r := seq(|stats|, i requires 0 <= i < |stats| => StatToPb(stats[i]));
    assert forall i :: 0 <= i < |r| ==> RestoreStats(r)[i] == stats[i];
    r
  }

  /** The event conversion used by StreamEvents. */
  function EventToPb(e: Docker.ContainerEvent): (r: Pb.ContainerEvent)
    ensures RestoreEvent(r) == e
  {
    Pb.ContainerEvent(e.actorId, e.name, e.host)
  }

  /**
   * The container message StreamContainerStarted sends: every field but the
   * command and the stats, which stay unset.
   */
  function ContainerToPb(c: Docker.Container): (r: Pb.Container)
    ensures r.command == "" && r.stats == []
    ensures RestoreContainer(r) == c.(command := "", stats := [])
  {
    Pb.Container(
      id := c.id, name := c.name, image := c.image, imageId := c.imageId,
      command := "",
      created := TimestampOf(c.created),
      state := c.state, health := c.health, host := c.host, tty := c.tty,
      labels := c.labels, group := c.group,
      started := TimestampOf(c.startedAt),
      stats := [])
  }

  /** FindContainer's message: as above, plus the command. */
  function FoundContainerToPb(c: Docker.Container): (r: Pb.Container)
    ensures r.stats == [] && RestoreContainer(r) == c.(stats := [])
  {
    ContainerToPb(c).(command := c.command)
  }

  /** ListContainers' message: as above, plus the command and the stat history. */
  function ListedContainerToPb(c: Docker.Container): (r: Pb.Container)
    ensures |r.stats| == |c.stats| && RestoreContainer(r) == c
  {
    ContainerToPb(c).(command := c.command, stats := StatsToPb(c.stats))
  }

  // ----- The receiving side, as a reference for what the messages keep -----

  function RestoreStat(p: Pb.ContainerStat): Docker.ContainerStat {
    Docker.ContainerStat(p.id, p.cpuPercent, p.memoryPercent, p.memoryUsage)
  }

  function RestoreStats(ps: seq<Pb.ContainerStat>): seq<Docker.ContainerStat> {
    seq(|ps|, i requires 0 <= i < |ps| => RestoreStat(ps[i]))
  }

  function RestoreEvent(p: Pb.ContainerEvent): Docker.ContainerEvent {
    Docker.ContainerEvent(p.actorId, p.name, p.host)
  }

  /** Rebuilds a local container from its wire message. */
  function RestoreContainer(p: Pb.Container): Docker.Container {
    Docker.Container(
      id := p.id, name := p.name, image := p.image, imageId := p.imageId,
      command := p.command,
      created := AsTime(p.created), startedAt := AsTime(p.started),
      state := p.state, health := p.health, host := p.host, tty := p.tty,
      labels := p.labels,
      stats := RestoreStats(p.stats),
      group := p.group)
  }

  lemma StatRoundTrip(s: Docker.ContainerStat)
    ensures RestoreStat(StatToPb(s)) == s
  {
  }

  /** The stat list keeps every sample, in ring-buffer order. */
  lemma StatsRoundTrip(stats: seq<Docker.ContainerStat>)
    ensures |StatsToPb(stats)| == |stats|
    ensures RestoreStats(StatsToPb(stats)) == stats
  {
    var back := RestoreStats(StatsToPb(stats));
    forall i | 0 <= i < |stats|
      ensures back[i] == stats[i]
    {
      StatRoundTrip(stats[i]);
    }
  }

  lemma EventRoundTrip(e: Docker.ContainerEvent)
    ensures RestoreEvent(EventToPb(e)) == e
  {
  }

  /** A listed container loses nothing: all fields, the command and the stat history survive. */
  lemma ListedContainerRoundTrip(c: Docker.Container)
    ensures RestoreContainer(ListedContainerToPb(c)) == c
  {
    StatsRoundTrip(c.stats);
  }

  /** A found container keeps every field but its stat history. */
  lemma FoundContainerRoundTrip(c: Docker.Container)
    ensures RestoreContainer(FoundContainerToPb(c)) == c.(stats := [])
  {
  }

  /** A started-container notification carries neither the command nor the stats. */
  lemma StartedContainerRoundTrip(c: Docker.Container)
    ensures RestoreContainer(ContainerToPb(c)) == c.(command := "", stats := [])
  {
  }

  // ----- Unary methods -----

  /**
   * FindContainer: a store error of any kind becomes NotFound with the
   * store's message; a found container is sent with its command and without stats.
   */
  function FindContainer(store: Result<Docker.Container, string>): (r: Result<Pb.Container, RpcError>)
    ensures r.Failure? <==> store.Failure?
    ensures store.Failure? ==> r.error == NotFound(store.error)
    ensures store.Success? ==> r.value.stats == [] && RestoreContainer(r.value) == store.value.(stats := [])
  {
    match store
    case Failure(msg) => Failure(NotFound(msg))
    case Success(c) =>
      FoundContainerRoundTrip(c);
      Success(FoundContainerToPb(c))
  }

  /**
   * ListContainers: a store error is returned unchanged; otherwise one wire
   * container per stored container, in order, each with its stats converted
   * one by one in order.
   */
  method ListContainers(store: Result<seq<Docker.Container>, string>) returns (r: Result<seq<Pb.Container>, RpcError>)
    ensures store.Failure? ==> r == Failure(Plain(store.error))
    ensures store.Success? ==> r.Success? && |r.value| == |store.value|
    ensures store.Success? ==> forall i :: 0 <= i < |store.value| ==> r.value[i] == ListedContainerToPb(store.value[i])
    ensures store.Success? ==> forall i :: 0 <= i < |store.value| ==> RestoreContainer(r.value[i]) == store.value[i]
  {
    if store.Failure? {
      return Failure(Plain(store.error));
    }
    var containers := store.value;
    var pbContainers: seq<Pb.Container> := [];
    for k := 0 to |containers|
      invariant |pbContainers| == k
      invariant forall j :: 0 <= j < k ==> pbContainers[j] == ListedContainerToPb(containers[j])
    {
      var c := containers[k];
      var pbStats: seq<Pb.ContainerStat> := [];
      for m := 0 to |c.stats|
        invariant |pbStats| == m
        invariant forall j :: 0 <= j < m ==> pbStats[j] == StatToPb(c.stats[j])
      {
        pbStats := pbStats + [StatToPb(c.stats[m])];
      }
      assert pbStats == StatsToPb(c.stats);
      pbContainers := pbContainers + [ContainerToPb(c).(command := c.command, stats := pbStats)];
    }
    forall i | 0 <= i < |containers|
      ensures RestoreContainer(pbContainers[i]) == containers[i]
    {
      ListedContainerRoundTrip(containers[i]);
    }
    return Success(pbContainers);
  }

  /** HostInfo: identity and versions copied; core count and memory converted to unsigned widths. */
  function HostInfo(host: Docker.Host, agentVersion: string): (r: Pb.Host)
    ensures r.id == host.id && r.name == host.name
    ensures r.dockerVersion == host.dockerVersion && r.agentVersion == agentVersion
    ensures 0 <= host.nCPU < TwoTo32 ==> r.cpuCores as int == host.nCPU
    ensures host.memTotal >= 0 ==> r.memory as int == host.memTotal as int
  {
    Pb.Host(host.id, host.name, ToUint32(host.nCPU), ToUint64(host.memTotal), host.dockerVersion, agentVersion)
  }

  /** One call the server makes on the runtime client's ContainerActions. */
  datatype ActionCall = ActionCall(action: Docker.ContainerAction, containerId: string)

  /** The reply to ContainerAction together with the client calls made while answering it. */
  datatype ActionReply = ActionReply(result: Result<Pb.ContainerActionResponse, RpcError>, calls: seq<ActionCall>)

  /** The request enum's mapping onto the runtime's action names. */
  function ActionOf(a: Pb.ContainerAction): (r: Option<Docker.ContainerAction>)
    ensures r.None? <==> a.Unrecognized?
    ensures r.Some? ==> Docker.IsKnownAction(r.value)
  {
    match a
    case ActionStart => Some(Docker.Start)
    case ActionStop => Some(Docker.Stop)
    case ActionRestart => Some(Docker.Restart)
    case Unrecognized(_) => None
  }

  /**
   * ContainerAction: an unrecognised action is rejected as InvalidArgument
   * without calling the client; otherwise the client is called once, and its
   * error, if any, comes back as Internal with the message unchanged.
   * `client` gives the client's error for an (action, container) pair.
   */
  function ContainerAction(req: Pb.ContainerActionRequest, client: (Docker.ContainerAction, string) -> Option<string>): (r: ActionReply)
    ensures req.action.Unrecognized? ==> r == ActionReply(Failure(InvalidArgument("invalid action")), [])
    ensures !req.action.Unrecognized? ==>
      && |r.calls| == 1
      && r.calls[0] == ActionCall(ActionOf(req.action).value, req.containerId)
      && (r.result.Success? <==> client(r.calls[0].action, req.containerId).None?)
      && (r.result.Failure? ==> r.result.error == Internal(client(r.calls[0].action, req.containerId).value))
  {
    match ActionOf(req.action)
    case None => ActionReply(Failure(InvalidArgument("invalid action")), [])
    case Some(action) =>
      var call := ActionCall(action, req.containerId);
      match client(action, req.containerId)
      case None => ActionReply(Success(Pb.ContainerActionResponse), [call])
      case Some(msg) => ActionReply(Failure(Internal(msg)), [call])
  }

  /** The three request values map to the three runtime actions, one to one. */
  lemma ActionMapping()
    ensures ActionOf(Pb.ActionStart) == Some(Docker.Start)
    ensures ActionOf(Pb.ActionStop) == Some(Docker.Stop)
    ensures ActionOf(Pb.ActionRestart) == Some(Docker.Restart)
  {
  }

  /** Every action the server forwards passes the runtime's own validator unchanged. */
  lemma ForwardedActionsParse(a: Pb.ContainerAction)
    requires !a.Unrecognized?
    ensures Docker.ParseContainerAction(ActionOf(a).value) == Docker.ParsedAction(ActionOf(a).value, None)
  {
  }

  // ----- Log events -----

  /**
   * logEventToPb: plain text becomes a SimpleMessage with the same text, an
   * ordered map a ComplexMessage holding its encoding; the other fields are
   * copied, and the timestamp is whole seconds with zero nanoseconds.
   * `encode` is the JSON encoder of ordered maps.
   */
  function LogEventToPb<V>(e: Docker.LogEvent<V>, encode: seq<(string, V)> -> seq<byte>): (r: Pb.LogEvent)
    ensures r.message.SimpleMessage? <==> e.message.Text?
    ensures e.message.Text? ==> r.message == Pb.SimpleMessage(e.message.text)
    ensures e.message.Fields? ==> r.message == Pb.ComplexMessage(encode(e.message.entries))
    ensures r.timestamp == Pb.Timestamp(e.timestamp as int, 0)
    ensures r.id == e.id && r.containerId == e.containerId && r.level == e.level
    ensures r.stream == e.stream && r.position == e.position
  {
    var message := match e.message
      case Text(text) => Pb.SimpleMessage(text)
      case Fields(entries) => Pb.ComplexMessage(encode(entries));
    Pb.LogEvent(message, TimestampOf(Docker.Time(e.timestamp as int, 0)), e.id, e.containerId, e.level, e.stream, e.position)
  }

  /** A plain-text event and a structured one never share a wire payload. */
  lemma ShapesNeverMerge<V>(e1: Docker.LogEvent<V>, e2: Docker.LogEvent<V>, encode: seq<(string, V)> -> seq<byte>)
    requires e1.message.Text? && e2.message.Fields?
    ensures LogEventToPb(e1, encode).message != LogEventToPb(e2, encode).message
  {
  }

  /** With an injective encoder, the conversion loses nothing: distinct events give distinct messages. */
  lemma LogEventToPbInjective<V>(e1: Docker.LogEvent<V>, e2: Docker.LogEvent<V>, encode: seq<(string, V)> -> seq<byte>)
    requires forall m1, m2 :: encode(m1) == encode(m2) ==> m1 == m2
    requires LogEventToPb(e1, encode) == LogEventToPb(e2, encode)
    ensures e1 == e2
  {
    var r1, r2 := LogEventToPb(e1, encode), LogEventToPb(e2, encode);
    assert e1.timestamp as int == r1.timestamp.seconds == r2.timestamp.seconds == e2.timestamp as int;
    if e1.message.Fields? {
      assert encode(e1.message.entries) == encode(e2.message.entries);
    }
  }

  /** StreamLogs' starting point: the zero time when the request has none, the request's time otherwise. */
  function StreamLogsSince(since: Option<Pb.Timestamp>): (r: Docker.Time)
    ensures since.None? ==> r == Docker.ZeroTime
    ensures since.Some? ==> TimestampOf(r) == since.value
  {
    match since
    case None => Docker.ZeroTime
    case Some(ts) => AsTime(ts)
  }

  // ----- StreamRawBytes -----

  /** The size of the reused read buffer. */
  const BufferSize: nat := 1024

  /** io.EOF, which a reader returns once it has nothing more. */
  const EOF: string := "EOF"

  /** One `reader.Read(buf)` outcome: the bytes placed in buf (n of them) and the error. */
  datatype ReadResult = ReadResult(data: seq<byte>, err: Option<string>)

  /** Every read fits the buffer, as io.Reader promises n <= len(buf). */
  predicate FitsBuffer(results: seq<ReadResult>) {
    forall i :: 0 <= i < |results| ==> |results[i].data| <= BufferSize
  }

  /**
   * The chunks sent and the error returned by the read/send loop from the
   * i-th read on, when i chunks have been sent. Past the end of `results` the
   * reader returns io.EOF; `sendErr(k)` is the outcome of the k-th Send.
   */
  function RawStreamFrom(results: seq<ReadResult>, sendErr: nat -> Option<string>, i: nat): (r: (seq<seq<byte>>, Option<string>))
    requires i <= |results|
    ensures i + |r.0| <= |results|
    ensures r.1.None? ==> i + |r.0| < |results| && results[i + |r.0|] == ReadResult([], None)
    decreases |results| - i
  {
    if i == |results| then ([], Some(EOF))
    else if results[i].err.Some? then ([], results[i].err)
    else if |results[i].data| == 0 then ([], None)
    else if sendErr(i).Some? then ([], sendErr(i))
    else
      var rest := RawStreamFrom(results, sendErr, i + 1);
      ([results[i].data] + rest.0, rest.1)
  }

  /** StreamRawBytes as a whole: a failure to open the reader is returned before anything is sent. */
  function RawStream(reader: Result<seq<ReadResult>, string>, sendErr: nat -> Option<string>): (r: (seq<seq<byte>>, Option<string>))
    ensures reader.Failure? ==> r == ([], Some(reader.error))
    ensures r.1.None? ==> reader.Success? && |r.0| < |reader.value| && reader.value[|r.0|] == ReadResult([], None)
  {
    match reader
    case Failure(msg) => ([], Some(msg))
    case Success(results) => RawStreamFrom(results, sendErr, 0)
  }

  /** `reader.Read(buf)`: copies the read's bytes into the front of buf. */
  method Read(buf: array<byte>, r: ReadResult) returns (n: nat, err: Option<string>)
    requires |r.data| <= buf.Length
    modifies buf
    ensures n == |r.data| && buf[..n] == r.data && err == r.err
  {
    n := |r.data|;
    for k := 0 to n
      invariant forall j :: 0 <= j < k ==> buf[j] == r.data[j]
    {
      buf[k] := r.data[k];
    }
    assert buf[..n] == r.data;
    err := r.err;
  }

  /**
   * StreamRawBytes: results into a 1024-byte buffer and sends each non-empty
   * chunk, until a read error (io.EOF included), a send error, or an empty
   * read without error, which ends the stream successfully.
   */
  method StreamRawBytes(reader: Result<seq<ReadResult>, string>, sendErr: nat -> Option<string>)
    returns (sent: seq<seq<byte>>, err: Option<string>)
    requires reader.Success? ==> FitsBuffer(reader.value)
    ensures (sent, err) == RawStream(reader, sendErr)
  {
    if reader.Failure? {
      return [], Some(reader.error);
    }
    var results := reader.value;
    var buf := new byte[BufferSize];
    sent := [];
    var i := 0;
    assert sent + RawStreamFrom(results, sendErr, 0).0 == RawStreamFrom(results, sendErr, 0).0;
    while true
      invariant 0 <= i <= |results| && |sent| == i
      invariant RawStreamFrom(results, sendErr, 0) == (sent + RawStreamFrom(results, sendErr, i).0, RawStreamFrom(results, sendErr, i).1)
      decreases |results| - i
    {
      if i == |results| {
        assert sent + [] == sent;
        return sent, Some(EOF);
      }
      var n, readErr := Read(buf, results[i]);
      if readErr.Some? {
        assert sent + [] == sent;
        return sent, readErr;
      }
      if n == 0 {
        assert sent + [] == sent;
        break;
      }
      var chunk := buf[..n];
      var sendResult := sendErr(i);
      if sendResult.Some? {
        assert sent + [] == sent;
        return sent, sendResult;
      }
      ghost var rest := RawStreamFrom(results, sendErr, i + 1);
      assert RawStreamFrom(results, sendErr, i) == ([chunk] + rest.0, rest.1);
      assert sent + ([chunk] + rest.0) == (sent + [chunk]) + rest.0;
      sent := sent + [chunk];
      i := i + 1;
    }
    err := None;
  }

  /** The concatenation of a list of chunks. */
  function Flatten(chunks: seq<seq<byte>>): seq<byte> {
    if chunks == [] then [] else chunks[0] + Flatten(chunks[1..])
  }

  /** The bytes of results i .. j-1, in order. */
  function ReadBytes(results: seq<ReadResult>, i: nat, j: nat): seq<byte>
    requires i <= j <= |results|
    decreases j - i
  {
    if i == j then [] else results[i].data + ReadBytes(results, i + 1, j)
  }

  /**
   * The k-th chunk sent is exactly the (i+k)-th read's bytes, that read had
   * no error, and every chunk holds 1 to 1024 bytes.
   */
  lemma {:induction false} RawChunksAreReads(results: seq<ReadResult>, sendErr: nat -> Option<string>, i: nat)
    requires i <= |results| && FitsBuffer(results)
    ensures var sent := RawStreamFrom(results, sendErr, i).0;
      && i + |sent| <= |results|
      && forall k :: 0 <= k < |sent| ==>
           sent[k] == results[i + k].data && results[i + k].err.None? && 1 <= |sent[k]| <= BufferSize
    decreases |results| - i
  {
    if i < |results| && results[i].err.None? && |results[i].data| > 0 && sendErr(i).None? {
      RawChunksAreReads(results, sendErr, i + 1);
      var sent := RawStreamFrom(results, sendErr, i).0;
      var rest := RawStreamFrom(results, sendErr, i + 1).0;
      assert sent == [results[i].data] + rest;
      forall k | 0 <= k < |sent|
        ensures sent[k] == results[i + k].data && results[i + k].err.None? && 1 <= |sent[k]| <= BufferSize
      {
        if k > 0 {
          assert sent[k] == rest[k - 1];
        }
      }
    }
  }

  /**
   * Why the loop stopped, from the first read it did not forward: the
   * reader ran out (io.EOF), the read failed (its error), the read was empty
   * (no error), or the send of its bytes failed (the send's error).
   */
  lemma {:induction false} RawStopCause(results: seq<ReadResult>, sendErr: nat -> Option<string>, i: nat)
    requires i <= |results|
    ensures var (sent, err) := RawStreamFrom(results, sendErr, i);
      var j := i + |sent|;
      && j <= |results|
      && (j == |results| ==> err == Some(EOF))
      && (j < |results| && results[j].err.Some? ==> err == results[j].err)
      && (j < |results| && results[j].err.None? && |results[j].data| == 0 ==> err.None?)
      && (j < |results| && results[j].err.None? && |results[j].data| > 0 ==> err == sendErr(j) && err.Some?)
    decreases |results| - i
  {
    if i < |results| && results[i].err.None? && |results[i].data| > 0 && sendErr(i).None? {
      RawStopCause(results, sendErr, i + 1);
    }
  }

  /** The sent bytes, concatenated, are the bytes of the forwarded results, in read order. */
  lemma {:induction false} RawBytesPreserved(results: seq<ReadResult>, sendErr: nat -> Option<string>, i: nat)
    requires i <= |results|
    ensures i + |RawStreamFrom(results, sendErr, i).0| <= |results|
    ensures Flatten(RawStreamFrom(results, sendErr, i).0) == ReadBytes(results, i, i + |RawStreamFrom(results, sendErr, i).0|)
    decreases |results| - i
  {
    var sent := RawStreamFrom(results, sendErr, i).0;
    if i < |results| && results[i].err.None? && |results[i].data| > 0 && sendErr(i).None? {
      RawBytesPreserved(results, sendErr, i + 1);
      var rest := RawStreamFrom(results, sendErr, i + 1).0;
      assert sent == [results[i].data] + rest;
      assert sent[1..] == rest;
    }
  }

  /**
   * A read that returns bytes together with an error (io.EOF included)
   * forwards none of those bytes: the error is returned at once.
   */
  lemma DataWithErrorIsDropped(results: seq<ReadResult>, sendErr: nat -> Option<string>)
    requires |results| > 0 && |results[0].data| > 0 && results[0].err.Some?
    ensures RawStreamFrom(results, sendErr, 0) == ([], results[0].err)
  {
  }

  /**
   * When every read succeeds with bytes and every send succeeds, all results
   * are forwarded and the stream still ends with the reader's io.EOF as its error.
   */
  lemma {:induction false} ExhaustedReaderEndsWithEOF(results: seq<ReadResult>, sendErr: nat -> Option<string>, i: nat)
    requires i <= |results|
    requires forall k :: i <= k < |results| ==> results[k].err.None? && |results[k].data| > 0 && sendErr(k).None?
    ensures |RawStreamFrom(results, sendErr, i).0| == |results| - i
    ensures RawStreamFrom(results, sendErr, i).1 == Some(EOF)
    decreases |results| - i
  {
    if i < |results| {
      ExhaustedReaderEndsWithEOF(results, sendErr, i + 1);
    }
  }
}
