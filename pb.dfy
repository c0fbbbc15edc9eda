/**
 * The agent protocol's wire messages (the generated `pb` package), reduced to
 * the fields the server fills in. A field the server leaves unset holds the
 * protobuf default: the empty string or the empty list.
 */
module Pb {
  import opened GoTypes

  /** google.protobuf.Timestamp. */
  datatype Timestamp = Timestamp(seconds: int, nanos: int)

  datatype ContainerStat = ContainerStat(
    id: string,
    cpuPercent: Float64,
    memoryPercent: Float64,
    memoryUsage: Float64)

  datatype Container = Container(
    id: string,
    name: string,
    image: string,
    imageId: string,
    command: string,
    created: Timestamp,
    state: string,
    health: string,
    host: string,
    tty: bool,
    labels: map<string, string>,
    group: string,
    started: Timestamp,
    stats: seq<ContainerStat>)

  datatype ContainerEvent = ContainerEvent(actorId: string, name: string, host: string)

  /** The two shapes of a log message payload, kept apart on the wire. */
  datatype Message = SimpleMessage(message: string) | ComplexMessage(data: seq<byte>)

  datatype LogEvent = LogEvent(
    message: Message,
    timestamp: Timestamp,
    id: uint32,
    containerId: string,
    level: string,
    stream: string,
    position: string)

  datatype Host = Host(
    id: string,
    name: string,
    cpuCores: uint32,
    memory: uint64,
    dockerVersion: string,
    agentVersion: string)

  /**
   * The request's action enum. The wire numbers of the three named values are
   * not part of this model, so `Unrecognized(n)` stands for a number that is
   * none of them; a number that names Start, Stop or Restart is one of the
   * named constructors, never `Unrecognized`.
   */
  datatype ContainerAction = ActionStart | ActionStop | ActionRestart | Unrecognized(number: int)

  datatype ContainerActionRequest = ContainerActionRequest(containerId: string, action: ContainerAction)

  /** The empty reply of a successful ContainerAction. */
  datatype ContainerActionResponse = ContainerActionResponse
}
