# Dozzle agent server and docker value types, in Dafny

This project models two pieces of the dozzle log viewer's container back end:

- the value types of the `docker` package: containers, stat samples,
  lifecycle events and log events; the whitelist validator for container
  actions (`start`, `stop`, `restart`); the log position tags; and the two
  log-event predicates `HasLevel` and `IsCloseToTime`;
- the remote agent's gRPC server: how each request is answered from the
  runtime client and the container store. This covers the conversions from
  local records to wire messages, the error taxonomy (NotFound,
  InvalidArgument, Internal, or a collaborator's error passed through), the
  action dispatch, the log-event encoding with its two message shapes, and
  the raw-bytes loop that reads into a 1024-byte buffer and forwards each chunk.

Files:

- `wrappers.dfy`: `Option` and `Result`.
- `go_types.dfy`: Go's fixed-width integers and their wrapping conversions.
- `docker_types.dfy`: module `Docker`.
- `pb.dfy`: module `Pb`, the wire messages.
- `agent_server.dfy`: module `Agent`.

Collaborators are inputs:

- a store answer is a `Result` (a container or a list of containers, or an error message);
- the runtime client's action call is a function from (action, container id) to an optional error;
- a reader is a sequence of read results (bytes, optional error);
- the output stream is a function from the send's index to an optional error.

`ContainerAction` records the client calls it makes. This lets its contract
say that an unrecognised action never reaches the client.

The `Restore*` functions rebuild local records from wire messages. They stand
for the receiving side, whose code is not part of this model. The round-trip
lemmas use them to state that a message keeps every field the server copies.

Three behaviours of the code a caller should know:

- An action the runtime rejects, for example on an unknown container id, comes
  back as Internal with the client's message, not as NotFound. The server does
  no store lookup before calling the client (internal/agent/server.go:299-303).
- StreamRawBytes ends with an error when the reader reports io.EOF. It ends
  without error only after an empty read that carries no error
  (internal/agent/server.go:110-117).
- A read that returns bytes together with an error forwards none of those
  bytes. `Agent.DataWithErrorIsDropped` states this.

## Model

| member | source | states |
|---|---|---|
| `Docker.ParseContainerAction` | internal/docker/types.go:60-68 | succeeds exactly on "start", "stop", "restart" (case-sensitive) and returns its input unchanged; otherwise yields the empty action and the error "unknown action: " followed by the input |
| `Docker.ParseRoundTrip` | internal/docker/types.go:54-64 | each of the three action constants parses back to itself with no error |
| `Docker.ParseRejectsVariants` | internal/docker/types.go:65-66 | the empty string, "Start", "STOP" and "Restart" are rejected with an error and the empty action |
| `Docker.PositionsDistinct` | internal/docker/types.go:46-50 | the tags "start", "middle" and "end" are pairwise distinct |
| `Docker.HasLevel` | internal/docker/types.go:80-82 | holds exactly when the level text is non-empty |
| `Docker.IsCloseToTime` | internal/docker/types.go:84-86 | equal timestamps are close; without int64 overflow, close exactly when the timestamps differ by less than 10 seconds |
| `Docker.HasLevelIffNonEmpty` | internal/docker/types.go:80-82 | an event has a level exactly when its level text is non-empty |
| `GoTypes.Wrap64` | internal/docker/types.go:85 | the int64 subtraction's result is the unique int64 congruent to the true difference modulo 2^64, and equals it when it fits |
| `Docker.CloseIffWithinTen` | internal/docker/types.go:84-86 | when the int64 subtraction does not overflow, two events are close exactly when their timestamps differ by less than 10 seconds |
| `Docker.TenSecondsIsNotClose` | internal/docker/types.go:84-86 | a difference of exactly 10 seconds is not close, in either order |
| `Docker.CloseReflexive` | internal/docker/types.go:84-86 | every event is close to itself |
| `Docker.WrapNegate` | internal/docker/types.go:85 | swapping the operands of the wrapping subtraction negates the result, except at -2^63, which maps to itself |
| `Docker.CloseSymmetric` | internal/docker/types.go:84-86 | closeness is symmetric for all int64 timestamps, overflow included |
| `Docker.CloseAcrossWrapAround` | internal/docker/types.go:85 | because the subtraction wraps, the largest timestamp and one 5 seconds above the smallest count as close |
| `Agent.TimestampOf` | internal/agent/server.go:185 | `timestamppb.New` keeps the instant: converting back gives the same seconds and nanoseconds |
| `Agent.StatToPb` | internal/agent/server.go:157-164 | the stat message restores to the original sample: id and the three measurements are kept |
| `Agent.StatsToPb` | internal/agent/server.go:207-214 | one stat message per sample, same length, restoring element by element to the ring-buffer snapshot in order |
| `Agent.EventToPb` | internal/agent/server.go:136-143 | the event message restores to the original event: actor id, name and host are kept |
| `Agent.ContainerToPb` | internal/agent/server.go:262-275 | command and stats are unset; every other field restores to the container's |
| `Agent.FoundContainerToPb` | internal/agent/server.go:178-194 | stats are unset; every other field, the command included, restores to the container's |
| `Agent.ListedContainerToPb` | internal/agent/server.go:216-231 | as many stat messages as samples, and the message restores to the whole container |
| `Agent.StatRoundTrip` | internal/agent/server.go:157-164 | the stat message carries id, CPU percent, memory percent and memory usage unchanged |
| `Agent.StatsRoundTrip` | internal/agent/server.go:206-214 | the stat list has one message per ring-buffer sample, in the same order, and loses nothing |
| `Agent.EventRoundTrip` | internal/agent/server.go:136-143 | the event message carries actor id, name and host unchanged |
| `Agent.ListedContainerRoundTrip` | internal/agent/server.go:216-231 | a listed container's message keeps every field, its command and its whole stat history |
| `Agent.FoundContainerRoundTrip` | internal/agent/server.go:178-194 | a found container's message keeps every field and the command, and carries no stats |
| `Agent.StartedContainerRoundTrip` | internal/agent/server.go:262-275 | a started-container notification keeps every field except the command and the stats, which are left unset |
| `Agent.FindContainer` | internal/agent/server.go:172-195 | fails exactly when the store fails, then with NotFound carrying the store's message; on success the message restores to the stored container without its stats |
| `Agent.ListContainers` | internal/agent/server.go:197-237 | a store error is returned unchanged; otherwise one wire container per stored container, in order, each with command and stats, and each restoring to the stored container |
| `Agent.HostInfo` | internal/agent/server.go:239-251 | id, name, docker version and agent version are copied; the core count is kept when it fits in 32 bits and the memory total when it is non-negative |
| `GoTypes.ToUint32` | internal/agent/server.go:245 | `uint32(x)` is congruent to x modulo 2^32 and equals x when x fits |
| `GoTypes.ToUint64` | internal/agent/server.go:246 | `uint64(x)` of an int64 equals x when non-negative and x + 2^64 when negative |
| `Agent.ActionOf` | internal/agent/server.go:284-297 | exactly the three named request values map to an action, and every action they map to is one the runtime accepts |
| `Agent.ActionMapping` | internal/agent/server.go:285-293 | Start, Stop and Restart map to the runtime's "start", "stop" and "restart" |
| `Agent.ForwardedActionsParse` | internal/agent/server.go:285-293 | every action the server forwards passes ParseContainerAction unchanged and without error |
| `Agent.ContainerAction` | internal/agent/server.go:283-306 | an unrecognised action returns InvalidArgument("invalid action") with no client call; otherwise exactly one client call, then an empty reply on success or Internal with the client's message unchanged |
| `Agent.LogEventToPb` | internal/agent/server.go:332-362 | a plain-text message becomes a SimpleMessage with the same text, an ordered map a ComplexMessage with its encoding; id, container id, level, stream and position are copied; the timestamp is whole seconds with zero nanoseconds |
| `Agent.ShapesNeverMerge` | internal/agent/server.go:334-347 | a plain-text event and a structured one never produce the same wire payload |
| `Agent.LogEventToPbInjective` | internal/agent/server.go:353-361 | with an injective map encoder, distinct log events give distinct wire events |
| `Agent.StreamLogsSince` | internal/agent/server.go:42-46 | the start time is the zero time when the request has none, and otherwise the request's time |
| `Agent.Read` | internal/agent/server.go:110 | a read places its n bytes at the front of the reused buffer and reports its error |
| `Agent.StreamRawBytes` | internal/agent/server.go:101-127 | the chunks sent and the error returned are those of the read/send loop specification `RawStream`, starting with a failure to open the reader |
| `Agent.RawStreamFrom` | internal/agent/server.go:108-126 | never forwards more chunks than reads remain; when it returns no error, the first unforwarded read is empty and error-free |
| `Agent.RawStream` | internal/agent/server.go:101-126 | a failure to open the reader is returned with nothing sent; a stream that ends without error stopped at an empty, error-free read |
| `Agent.RawChunksAreReads` | internal/agent/server.go:108-124 | the k-th chunk sent is exactly the k-th read's bytes, that read had no error, and every chunk holds 1 to 1024 bytes |
| `Agent.RawStopCause` | internal/agent/server.go:109-126 | the loop stops at the first read it does not forward: an exhausted reader gives io.EOF, a failed read its error, an empty read success, a failed send the send's error |
| `Agent.RawBytesPreserved` | internal/agent/server.go:108-124 | the concatenation of the chunks sent equals the bytes of the forwarded reads, in read order |
| `Agent.DataWithErrorIsDropped` | internal/agent/server.go:110-113 | a first read that returns bytes together with an error sends nothing and returns that error |
| `Agent.ExhaustedReaderEndsWithEOF` | internal/agent/server.go:109-113 | when all reads and sends succeed, every read is forwarded and the stream ends with io.EOF |

## Left out

- TLS and gRPC server construction in `NewServer` (internal/agent/server.go:308-330) is library configuration. Certificate parsing, the CA pool and mutual client-certificate checks are not modelled.
- The channel and `select` loops of StreamEvents, StreamStats, StreamContainerStarted and LogsBetweenDates, and the event-draining part of StreamLogs, are not modelled. Their point is goroutine scheduling and cancellation. Only their per-item conversions are modelled (`EventToPb`, `StatToPb`, `ContainerToPb`, `LogEventToPb`), plus the `since` defaulting of StreamLogs.
- The runtime client, the container store, the event generator and the ring buffer are not part of this model. They appear only as inputs: answers, read scripts and the stats snapshot as a sequence.
- `orderedMapToJSONBytes` and `anypb.New` are foreign encoders. The map encoder is a function parameter of `LogEventToPb`, and the `Any` wrapper is not represented.
- `LogEventToPb` makes the two-case message a type: the `log.Fatalf` branch for any other message type cannot arise. The source's two ordered-map types (string to any, string to string) are one `Fields` case, with the value type as a parameter.
- Floating-point fields (CPU percent, memory percent, memory usage) are carried as opaque 64-bit patterns.
- `IsCloseToTime` is modelled on integers, with the int64 subtraction wrapping explicitly. The float64 conversion and `math.Abs` are left out because they do not change the outcome of the `< 10` comparison.
- `time.Time` is reduced to Unix seconds and nanoseconds. Time zones, monotonic readings and the validity range of `timestamppb` are left out.
- The response wrappers that hold a single field (`FindContainerResponse`, `ListContainersResponse`, `HostInfoResponse`) are represented by the field they hold.
- The docker `Host` record is not part of this model. Its fields are taken from their use in HostInfo.
- StreamRawBytes: a reader script that runs out is read as io.EOF. A Go reader would keep answering instead; the model does not capture a reader that never ends.
- LogEventToPb: Go strings are byte strings and the model's are Unicode text. A log line that is not valid UTF-8 makes `anypb.New` fail at internal/agent/server.go:336-338, and the server then sends a nil message, because it discards that error. The model does not capture this failure and always yields the SimpleMessage.
- StreamRawBytes: the chunk sent at internal/agent/server.go:119-121 is a slice of the reused buffer. The model sends a copy, which assumes Send serialises the chunk before it returns, so the next read cannot overwrite bytes not yet sent.
