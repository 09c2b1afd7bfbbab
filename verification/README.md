# A verified model of sape

sape tunnels bytes between peers over libp2p. A dialer reaches a listener directly, through one relay, or through a
chain of relays (`--jump`), and then talks netcat over the stream, forwards local ports, serves a SOCKS5 and HTTP CONNECT
proxy, or has the listener bind a port and send its clients back (`-R`). This project models those protocols in Dafny
and proves what they promise. `dafny verify dfyconfig.toml` checks all of it.

| file | what it holds |
|---|---|
| `Bytes.dfy` | octets, big-endian numbers, UTF-8 text |
| `Unicode.dfy` | UTF-8 by code points, and the white space characters |
| `Postcard.dfy` | the Postcard wire format: varints, strings, lists |
| `Frames.dfy` | the control messages, their encoding, the length-prefixed frame, and a frame while it arrives |
| `Streams.dfy` | one end of a stream: `read_exact` and `write_all` as loops over single reads and writes, the read and write functions, the copy |
| `Addresses.dfy` | multiaddrs, relay validation, the circuit splitter, the peer of an address |
| `JumpSession.dfy` | the relay's handler of one jump request as a state machine, and its discipline |
| `JumpNetwork.dfy` | any number of dialers, relays, other programs and streams in any interleaving, and the invariant of every run |
| `JumpTheorems.dfy` | no false Ok, the route, byte transparency, cost |
| `JumpOutcome.dfy` | the outcome of a chain, decided by its earliest failing hop |
| `JumpDelivery.dfy` | what ended bridges have delivered, and the cause of a silent end |
| `JumpProgress.dfy` | no deadlock while a result is awaited; a bound on the events before the verdict |
| `JumpCompletion.dfy` | which chains can be established at all, from any state of any run |
| `RelayHandler.dfy` | `handle_jump_request` as code, proved to be a run of the machine |
| `DialCommand.dfy` | the jump branch of `run_dial` as code, proved to be a run of the dialer's machine |
| `ReverseAck.dfy`, `ReverseSession.dfy` | reverse forwarding: the ack, and the session as a state machine |
| `ReverseTheorems.dfy`, `ReverseReach.dfy` | what every run of the session keeps, and which targets its runs can hand to a dialer |
| `ReverseHandlers.dfy`, `ReverseRuns.dfy` | the sequential code of both sides, the tasks for accepted clients included, and its outcomes as runs of the session machine |
| `HttpConnect.dfy`, `HttpRequests.dfy` | the HTTP CONNECT front end and its buffered reader; which requests it accepts, by their characters, and what reads can lose |
| `SwarmWaits.dfy` | the waiting loops over arbitrary traces of swarm events |
| `TextForms.dfy` | forward specs, pairing codes, dial targets as text |

Some conventions. A process in a network keeps logs of all it has exchanged on its streams, so that a queue is what one
end has sent and the other has not yet taken; the invariants relate the logs of neighbours. Sequential code is written
as methods, each with a contract in terms of a specification function or of the machine; the theorems are about those.
A Rust `String` is a byte sequence that is valid UTF-8 (`Text`). What libp2p prints and parses is a parameter (`World`).

## What the model found

- A jump hop is entered at the first `/p2p` of its address (`src/relay.rs:208`). For the circuit address that a listener
  advertises, that is the relay. The last stream of a chain then goes to the relay and not to the listener, against
  `docs/architecture.md:184`. `AdvertisedTargetIsNotReached` and `LastHopReachesTheRelay` say exactly when the listener
  is reached.
- No node opens a stream to itself, so a circuit target behind `-J` of that same relay can never be established
  (`TargetBehindTheLastJump`). `EstablishableExactly` says which chains can.
- The HTTP CONNECT reader is dropped with what it has read ahead. A client that waits for the reply loses nothing; of
  what is sent ahead of the reply, some reads lose bytes if and only if anything was sent behind the header block
  (`LossIsPossibleExactly`, `HandleHttpConnect`).
- A dispatching dialer connects whatever stream comes in, from any peer, to the target that stream names, and a port
  bound for a reverse forward is never closed. So a dialer can be handed a target that it never asked for. `HandedExactly`
  says which, for every policy of who may open streams and what the dialers of that identity ask for: only the asked
  target, if all its dialers ask for the same one, no other program opens tunnel streams to it, and none asks the listener
  under its identity; `EachConditionIsNeeded` shows that none of the three can be dropped.
- Pairing codes with a sign or with leading zeros are recognised, but none is ever generated, and such a code names
  another namespace than the code it looks like (`SignedCodeIsRecognised`, `RecognisedButNotGenerated`).
- A rendezvous wait counts only connections made after the decisive discovery (`DiscoverySucceedsExactly`): for
  a peer that is connected already and then discovered, the wait succeeds exactly if it connects once more in time
  (`ConnectedBeforehand`).
- The identify wait is satisfied by events of any peers (`OthersIdentify`). Success means that the relay has identified,
  on every trace, exactly if no other peer can identify in the meantime (`IdentifiedMeansTheRelay`).

## Model

| member | source | states |
|---|---|---|
| Unicode.TextRoundTrip | src/forward/socks5.rs:105-106 | every list of code points encodes to text that has just those characters |
| Unicode.CharsRoundTrip | src/forward/socks5.rs:105-106 | every text is the encoding of its characters, so that nothing but such encodings is text |
| Postcard.VarintBytes | src/jump.rs:36 | seven bits to a byte, the lowest first, the high bit set on all bytes but the last |
| Postcard.LongFormIsRead | src/jump.rs:31-32 | a non-canonical form with a group of zeros to spare is read as the same number |
| Postcard.NotText | src/jump.rs:31-32 | bytes that are not UTF-8, or fewer than the length says, are no string |
| Postcard.VarintRoundTrip | src/jump.rs:31-32 | decoding inverts encoding exactly on the numbers of the integer type, for any width |
| Postcard.TakeVarintUses | src/jump.rs:31-32 | whatever varint is accepted, canonical or not, its value fits the type and its canonical form is no longer than what was read |
| Postcard.TextsRoundTrip | src/jump.rs:8-11 | a list of strings of any length is read back, with what follows it untouched |
| Frames.CodecRoundTrip | src/jump.rs:8-17 | every control message is decoded from its own encoding, with any bytes behind it |
| Frames.RequestRoundTrip | src/tunnel.rs:11-22 | the same for each form of tunnel request |
| Frames.RemainingChainIsShorter | src/relay.rs:218-253 | whatever chain is decoded, its re-encoding is no longer, and that of the hops behind the first is strictly shorter |
| Frames.ReencodedErrorFits | src/relay.rs:255-260 | an error that was read can be passed on within the bytes it came from |
| Frames.FrameBytes | src/tunnel.rs:40-48 | on the wire: a big-endian length in four bytes and then the body; the Ok and the netcat frame are [0, 0, 0, 1, 0] |
| Frames.BodyBytes | src/tunnel.rs:11-22 | on the wire: tags from 0 in the order of the declaration, a string as its length and its bytes, fields in their order, a flag as 0 or 1 |
| Frames.ChainBytes | src/jump.rs:8-11 | on the wire: the number of hops, and then each hop as a string |
| Frames.NotDecoded | src/tunnel.rs:36-37 | other tags, and flags that are neither 0 nor 1, are refused |
| Frames.FrameRoundTrip | src/tunnel.rs:24-49 | a frame is read back if and only if its body is within 65,536 bytes; otherwise the reader stops behind the length |
| Frames.WriteThenRead | src/tunnel.rs:24-49 | what the writer accepts is read back if and only if it is within 65,536 bytes; otherwise the reader fails right behind the 4 length bytes |
| Frames.FramesAreSelfDelimiting | src/jump.rs:19-71 | successive reads of any concatenation of frames give the messages in order and leave exactly the rest |
| Frames.ArrivedPrefix | src/jump.rs:19-33 | reading stops at the same place, with the same body, whatever follows on the stream |
| Frames.SameMessage | src/jump.rs:19-44 | a reader that has made out a message has made out the one that was written, and its frame whole |
| Streams.Stream.ReadExact | src/tunnel.rs:26-35 | fills the buffer with exactly the next bytes, over any chunks, or fails with everything consumed |
| Streams.Stream.WriteAll | src/tunnel.rs:46-47 | all bytes are written, or a prefix of them and a failure |
| Streams.Stream.ReadFrame | src/tunnel.rs:24-35 | by the length in the first four bytes: above 65,536 it fails with only those consumed, else it gives that many bytes and consumes nothing behind them, or everything if they are cut short |
| Streams.Stream.ReadMessage | src/tunnel.rs:24-38 | result and consumption are those of the message at the head of the stream |
| Streams.Stream.WriteMessage | src/tunnel.rs:40-49 | refuses exactly what does not fit a u32 length; otherwise writes the frame, or a prefix and a failure |
| Streams.Stream.ReadJumpChain | src/jump.rs:19-33 | gives the hops of the chain frame at the head of the stream |
| Streams.Stream.ReadJumpResult | src/jump.rs:46-60 | gives the result at the head of the stream |
| Streams.Stream.ReadTunnelRequest | src/tunnel.rs:24-38 | gives the request at the head of the stream |
| Streams.TunnelCopy | src/tunnel.rs:51-57 | in any interleaving, each side is given a prefix of what was read at the other, and all of it on success |
| Addresses.ValidateRelayAddress | src/types.rs:88-113 | the loop over flags reports the first objection in the code's order |
| Addresses.AcceptedItems | src/types.rs:88-113 | accepted exactly with a peer id item and a TCP item, or both a UDP and a QUIC v1 item; a missing peer id is reported first |
| Addresses.FirstPeerIsFirst | src/types.rs:146-152 | the peer of an address is the one of its first peer id item |
| Addresses.LastPeerIsLast | src/types.rs:132-134 | the listener of a circuit address is the one of the last peer id item |
| Addresses.RelayBaseFromCircuitAddress | src/types.rs:115-144 | the loop computes the split at the first circuit |
| Addresses.SplitIsSoundAndComplete | src/types.rs:115-144 | accepted with a base and a peer exactly when the address is base, circuit, rest, with no circuit in the base, the last peer of the rest, and a valid base |
| Addresses.SplitErrors | src/types.rs:137-143 | which error is reported, exactly, in the order of the checks |
| Addresses.AdvertisedSplitsBack | src/client/listen.rs:60-63 | the advertised address splits back into relay address and listener if and only if the relay address has no circuit |
| Addresses.LastHopReachesTheRelay | src/types.rs:146-152 | for every accepted address the first peer is the base's, and the listener's only if the two ids coincide |
| Addresses.SolePeerIsReached | src/types.rs:146-152 | with one peer id in the address, that peer is the one reached |
| Addresses.DocumentedDeliveryFails | docs/architecture.md:184 | a concrete advertised address whose first peer is the relay |
| JumpSession.SessionStepKeeps | src/relay.rs:183-273 | every event of a handler, in any order, keeps its discipline |
| JumpSession.HeaderFits | src/relay.rs:249-253 | the frame for the remaining hops of an accepted chain is always within the reader's bound |
| JumpNetwork.DialStepKeeps | src/client/dial.rs:60-84 | every event of a dialer keeps: chain frame first, result next, netcat request and stdin only after Ok |
| JumpNetwork.RunKeeps | src/relay.rs:109-130 | every state of every run, with any number of handlers, satisfies the invariant between neighbouring logs |
| JumpTheorems.GivesOneResult | src/relay.rs:195-265 | what a handler has written upstream is part of one result frame; payload only behind a whole Ok |
| JumpTheorems.ChainIsTheOpeners | src/relay.rs:249-253 | the chain a relay has read is the one its opener wrote, and the bytes behind it are payload |
| JumpTheorems.ResultIsTheRelays | src/relay.rs:255-256 | the result an opener has read is the one the relay below wrote, whole |
| JumpTheorems.NoFalseOk | src/client/dial.rs:68-72 | once the dialer has read Ok, every relay on its path has an open outbound stream and has committed: jump streams, and a tunnel stream last |
| JumpTheorems.OkMeansDelivered | src/relay.rs:204-265 | after Ok the streams visit exactly the first peers of `jump ++ [target]`, in order |
| JumpTheorems.AdvertisedTargetIsNotReached | src/relay.rs:205-209 | with an advertised target, a completed chain ends at the listener's relay, and at the listener only if the ids coincide |
| JumpTheorems.RelaysOnlyPayloadDown | src/relay.rs:268-270 | from any relay on, what the far program takes is a prefix of the payload behind that relay's chain frame |
| JumpTheorems.TransparentDown | src/client/dial.rs:65-82 | in every run, what is sent on the tunnel stream is a prefix of what the dialer wrote behind its chain frame |
| JumpTheorems.TransparentUp | src/client/dial.rs:68-82 | in every run, what the dialer reads behind Ok is a prefix of what the far program wrote |
| JumpTheorems.FarEndSeesNetcat | src/client/dial.rs:79-82 | the first request made out at the end of the tunnel is the dialer's netcat request |
| JumpSession.RefusalText | src/relay.rs:239 | the message of a refusal is its text, the peer, and behind a colon and a space the last error |
| JumpSession.HopFailedText | src/relay.rs:239 | the text of that message, byte by byte |
| JumpSession.EmptyChainText | src/relay.rs:198 | the text of the error for an empty chain, byte by byte |
| JumpTheorems.RetriesAreTen | src/relay.rs:226-245 | each of the first nine refusals leads to another attempt, 500 ms later than the pause before; only the tenth ends them, after 22,500 ms in all; an open stream ends them at any time |
| JumpTheorems.ChainCosts | src/relay.rs:218-249 | a chain of n hops costs at most n handlers, 10 n attempts and 22,500 n ms of backoff, whatever the relays |
| JumpTheorems.DialCosts | src/client/dial.rs:41-42 | the same bounds for every dialer in every run, with n its number of jump addresses |
| JumpOutcome.OutcomeIsTheEarliestFailure | src/client/dial.rs:68-76 | the dialer's verdict is the fate of its path: Ok, the refusal byte for byte, or a lost stream where the path went silent or a stream was lost |
| JumpOutcome.DialFate | src/relay.rs:204-263 | the fate is decided by the earliest hop not reached: its ten refusals and their message; or a silent end, for a listed cause (no peer named, a chain or refusal frame beyond the bound, dial channel closed), or because the relay was cut off before it dealt with the hop |
| JumpOutcome.FateIsDecidedByEarliest | src/relay.rs:225-263 | the same from any relay on, by induction over the remaining hops |
| JumpOutcome.FateIsFinal | src/relay.rs:204-265 | no step changes the fate of a path once it is decided |
| JumpDelivery.SilenceHasACause | src/relay.rs:204-247 | a path that goes silent, with no stream on it lost, does so for a listed cause at its earliest unreached hop, by induction over the hops |
| JumpDelivery.LostHasACause | src/client/dial.rs:68 | a dialer that has lost its stream: a stream on the way was lost, or the relay before the earliest unreached hop ended for one of the listed causes |
| JumpDelivery.EverythingIsDelivered | src/relay.rs:268-270 | when all bridges of a chain have ended and no stream was lost, all that the dialer wrote behind its chain frame was sent on the tunnel, and all that the far program wrote was given back behind the Ok |
| JumpDelivery.ClosedDialerHasEverything | src/client/dial.rs:79-82 | a dialer whose session has closed, with no stream on the way lost, has read the Ok and then all that the far program wrote |
| JumpOutcome.ForwardedChainsFit | src/relay.rs:249-253 | in every run no relay behind the first finds an unreadable or empty chain, and no relay called by a dialer finds an empty one |
| JumpOutcome.HandlerDiscipline | src/relay.rs:183-273 | over every run: one chain frame read, at most one result with nothing before it, Ok only after the downstream Ok or the open tunnel stream, payload only behind that Ok |
| JumpProgress.NoDeadlock | src/client/dial.rs:66-68 | in every state of every run, while a dialer awaits its result, it, or a relay on its path that has not come to its bridge, can move or waits for an open_stream call; moves of other programs do not count, and those that do are the ones that `VerdictIsBounded` bounds |
| JumpProgress.HandlerAdvances | src/relay.rs:191-265 | every event before the bridge strictly decreases a rank of the handler |
| JumpProgress.VerdictIsBounded | src/client/dial.rs:60-76 | in every run, the events of a dialer and of all relays on its path, up to its verdict and their bridges, are bounded by a constant for each jump address and one for the dialer |
| JumpCompletion.RelaysComplete | src/relay.rs:191-265 | once a passable chain frame lies in front of a fresh relay, some run brings an Ok up to it, for any number of hops |
| JumpCompletion.PlanCanSucceed | src/client/dial.rs:41-72 | whatever has happened before, a new dialer whose frame is within the bound and whose addresses each name a peer, and another one than the node before, can read Ok |
| JumpCompletion.EstablishableExactly | src/client/dial.rs:41-72 | a dialer can ever read Ok if and only if its chain frame is within 65,536 bytes and its jump addresses and target each name a peer, and another one than the node before |
| JumpCompletion.TargetBehindTheLastJump | src/relay.rs:205-230 | a target whose first peer is that of the last jump address is never established |
| RelayHandler.OpenWithRetries | src/relay.rs:225-247 | gives up only after ten refusals and 22,500 ms of pauses, with the tenth error; else ends in a stream, at the first attempt that is not refused; the case behind the loop does not occur |
| RelayHandler.AskDownstream | src/relay.rs:249-263 | writes the remaining chain, reads the result, and does what the machine does |
| RelayHandler.HandleJumpRequest | src/relay.rs:183-273 | the whole handler is a run of the machine with the same logs; it asks only for its own hop, the dial command first and then the attempts and pauses, with the tunnel protocol for the last hop only; it breaks off only where a write has failed |
| DialCommand.CollectHops | src/client/dial.rs:41-42 | pushing the hops gives the further jump addresses followed by the target |
| DialCommand.RunDialThroughJumps | src/client/dial.rs:32-101 | its run is one of the dialer's machine, with the same logs; what it writes and how it ends, case by case; no stream unless the target is a multiaddr and the first relay was identified; netcat only behind an Ok; interrupted only where a write failed |
| ReverseAck.SendReverseAck | src/forward/mod.rs:17-33 | writes the ack, and less of it only if a write fails; a reason beyond 65,535 bytes always fails after the status byte |
| ReverseAck.AwaitReverseAck | src/forward/reverse.rs:105-118 | reads exactly the ack, whichever it is, and all if it is cut short; accepts on the OK byte alone |
| ReverseAck.AckOnTheWire | src/forward/mod.rs:17-33 | the ack is a zero byte; or a one, the length in two bytes, the higher first, and the reason; whatever is not zero is taken for a refusal |
| ReverseAck.AckAgreement | src/forward/mod.rs:17-33 | the dialer accepts if and only if the bind succeeded and a byte got through; a reason that fits is recovered exactly; a half-written ack is never accepted |
| ReverseSession.DecodedService | src/client/listen.rs:113-138 | by the request itself: the listener serves netcat, connects to the target, or binds as asked; a dialer connects only for a reverse forward |
| ReverseSession.RunKeeps | src/client/listen.rs:99-152 | every run, in any interleaving of clients, acks and streams, keeps the invariant of the session and what is settled |
| ReverseTheorems.PortsAreBoundForTheirAskers | src/client/listen.rs:100-137 | every port was asked for, by an allowed peer, with exactly the bound parameters, and each request binds at most one |
| ReverseTheorems.ReturnStreamsBelongToABind | src/forward/reverse.rs:36-76 | in every state of the machine, the listener's own streams are for clients of a bound port, to the peer it was bound for, with that ask's target first; the task itself is `ServeClient` |
| ReverseTheorems.DispatchingMeansBound | src/client/dial.rs:168-178 | a dispatching dialer has read the OK byte, and a port is bound for its identity with its ask |
| ReverseTheorems.DecisionIsTheBindResult | src/forward/reverse.rs:105-118 | once answered, the dialer goes on to dispatch if and only if the port was bound and the ack got through |
| ReverseTheorems.DispatchedTargets | src/forward/reverse.rs:121-146 | a dispatched return stream goes to the target of its port, with only the request consumed; to the dialer's own target if the port is its own |
| ReverseTheorems.BoundPortStaysTaken | src/forward/reverse.rs:31-33 | once a port is bound, in every continuation, any other stream that asks for it is refused and reads no OK |
| ReverseTheorems.SamePortIsGrantedOnce | src/forward/reverse.rs:31-80 | no two dispatching dialers have asked for the same non-zero port |
| ReverseReach.ReturnRequestFits | src/forward/reverse.rs:60-66 | the request sent with a client is never beyond the reader's bound |
| ReverseReach.ClientsReachTheirPeer | src/forward/reverse.rs:36-76 | from every reachable state a client of any bound port can be handed to any dispatching dialer of that identity |
| ReverseReach.RequestsCanBeGranted | src/client/listen.rs:127-145 | from every state an allowed dialer whose request fits, and for whose ask a port is free, can be granted it |
| ReverseReach.TargetsAreThoseBound | src/forward/reverse.rs:17-81 | from the listener, for the ports bound so far, a dispatching dialer can be handed exactly the targets bound for its identity |
| ReverseReach.OtherProgramsReachADialer | src/forward/reverse.rs:124-146 | from every reachable state any other program that can open a stream to a dispatching dialer can have it connect to any target that fits |
| ReverseReach.LaterAsksReachADialer | src/forward/reverse.rs:36-76 | from every reachable state a later dialer of the same identity makes its target reachable at an earlier one |
| ReverseReach.LaterDialerGetsAnEarlierTarget | src/forward/reverse.rs:36-78 | for every identity and any two asks not for one same port, a run in which the second dialer can be handed the first one's target |
| ReverseReach.HandedExactly | src/forward/reverse.rs:121-149 | for every policy, the targets that streams to a peer can be connected to, over all runs within it, are exactly those its dialers ask for, and all that fit if other programs may open streams to it or ask under its identity |
| ReverseReach.OnlyTheAskedTarget | src/forward/reverse.rs:121-149 | with one target asked for and no other programs, every stream dispatched at a peer goes to that target |
| ReverseReach.EachConditionIsNeeded | src/forward/reverse.rs:121-149 | without any one of the three conditions, some run hands over any other target that fits |
| ReverseHandlers.RequestReverseForward | src/forward/reverse.rs:83-119 | granted only with the whole request out and an OK byte in; a rejection carries the reason |
| ReverseHandlers.RunIncomingReverseHandler | src/forward/reverse.rs:121-149 | every incoming stream gets the target its own request names, whatever the streams before it carried |
| ReverseHandlers.RunReverseDial | src/client/dial.rs:163-179 | incoming streams are dispatched only after the request was granted; otherwise none is read from |
| ReverseHandlers.ServeClient | src/forward/reverse.rs:51-76 | for one client: one tunnel stream, to the bound peer; the target's request first and whole, then what the client sends, all of it if the session closes |
| ReverseHandlers.ClientTaskFitsTheMachine | src/forward/reverse.rs:51-76 | every next piece of what such a task wrote is a write that the session machine allows, on a stream to the bind's peer |
| ReverseHandlers.AcceptLoop | src/forward/reverse.rs:36-78 | over any accepted clients and accept errors: exactly one open call for each accepted client, in order and nothing else, for a tunnel stream to the bound peer that starts with the ask's target |
| ReverseHandlers.Listener.TryBind | src/forward/reverse.rs:25-33 | binds on all addresses with gateway ports and on the loopback address without; succeeds only with the port asked for, or any for port 0, and only if it is not bound yet |
| ReverseHandlers.Listener.Serve | src/client/listen.rs:99-152 | a peer not allowed is not even read from; by the request: netcat, the target to connect to, or a bind on the port and address asked for, answered with the whole ack unless a write fails |
| ReverseRuns.RequestIsWritten | src/forward/reverse.rs:96-103 | what the request writes, whole or cut off, the dialer of the session machine can write |
| ReverseRuns.AckIsRead | src/forward/reverse.rs:105-118 | whatever the outcome, the machine's dialer reads as much of the ack, and dispatches exactly if the code was granted |
| ReverseRuns.ServeIsARun | src/client/listen.rs:99-152 | every outcome of the listener's task for a stream is a run of the session machine, with the same bytes read and written and the same bind |
| ReverseRuns.DispatchingIsARun | src/forward/reverse.rs:124-146 | the dialer's loop over any incoming streams is a run of the session machine, each stream read as far and connected to the same target |
| HttpConnect.BufReader.ReadLine | src/forward/socks5.rs:104-106 | a line of the bytes ahead, whatever the chunks; consumed plus buffered plus unread is conserved |
| HttpConnect.SkipHeaders | src/forward/socks5.rs:119-126 | the loop ends behind the first blank line or at the end of input, depending on the bytes alone |
| HttpConnect.ReadRequest | src/forward/socks5.rs:102-129 | decision, target and end of headers are a function of the bytes, independent of chunking; the reads are feasible ones, any feasible list of them if the socket's chunks come so, and the dropped buffer is non-empty if and only if one of them crossed that end |
| HttpConnect.LeftoverMeansCrossed | src/forward/socks5.rs:103-129 | bytes are left in the buffer exactly when some read went past the end of the headers |
| HttpConnect.HandleHttpConnect | src/forward/socks5.rs:96-153 | for what a client sends before and after it sees the reply: the tunnel carries the forward request and then exactly the unread bytes, the client is given the reply and then what comes back; nothing is lost if nothing was sent ahead behind the headers |
| HttpConnect.SettledStays | src/forward/socks5.rs:102-129 | once the request is settled, what follows it changes nothing of its parse |
| HttpConnect.LossIsPossibleExactly | src/forward/socks5.rs:103-129 | among the reads that the buffer allows, some lose bytes if and only if bytes were sent behind the header block ahead of the reply; others lose none |
| HttpRequests.BlankByChars | src/forward/socks5.rs:123-125 | a line is blank exactly if all its characters have the Unicode property White_Space |
| HttpRequests.LineWords | src/forward/socks5.rs:108 | words with spaces between them are split back into those words |
| HttpRequests.FirstLineDecides | src/forward/socks5.rs:108-115 | a first line is refused exactly if it has fewer than three words or its first is not CONNECT |
| HttpRequests.HeadersEndAtTheBlankLine | src/forward/socks5.rs:119-126 | behind any number of header lines, the headers end with the first blank line |
| HttpRequests.RequestIsParsed | src/forward/socks5.rs:102-129 | a CONNECT request with any header lines is accepted with its second word as target, and consumed right up to the payload |
| HttpRequests.NotTextIsRefused | src/forward/socks5.rs:105-122 | a first line or header line that is not UTF-8 ends the session without a reply |
| HttpRequests.InputEndsTheHeaders | src/forward/socks5.rs:120-126 | headers that end with the input, even within a line, are consumed whole and the request accepted |
| HttpRequests.UnfinishedRequestWaits | src/forward/socks5.rs:120-126 | as long as the blank line is missing, the request is not settled |
| HttpRequests.LossDependsOnTheReads | src/forward/socks5.rs:103-129 | for every such request: some reads lose payload that was sent ahead, others none, and one read loses it all if it fits the 8,192 bytes of the buffer with the request |
| HttpRequests.Replies | src/forward/socks5.rs:111-147 | the status is 400 for what is refused and 200 for what is tunneled, each with an empty header block |
| SwarmWaits.Swarm.ConnectAndIdentify | src/client/swarm.rs:16-62 | succeeds if and only if both identify events come within 30 s and before the swarm ends |
| SwarmWaits.OthersIdentify | src/client/swarm.rs:36-49 | the identify events of any one other peer satisfy the wait, though the relay has not identified |
| SwarmWaits.IdentifiedMeansTheRelay | src/client/swarm.rs:16-62 | for the peers that can be identified with: a satisfied wait means, on every trace, that the relay itself has identified both ways, if and only if there are no others than the relay |
| SwarmWaits.Swarm.WaitForPeerConnection | src/client/swarm.rs:64-95 | comes to what the trace says, by its own deadline or the caller's |
| SwarmWaits.PeerIsAwaitedExactly | src/client/swarm.rs:64-95 | success if and only if the peer's connection is in the trace, within 30 s and before the swarm ends |
| SwarmWaits.PeerWaitFails | src/client/swarm.rs:64-95 | otherwise: the swarm's end exactly if that is seen first and in time, and else the timeout |
| SwarmWaits.Swarm.WaitForMdnsAndConnect | src/client/swarm.rs:112-149 | comes to what the trace says, and dials only the first announced address of the peer |
| SwarmWaits.AddressOfIsTheFirst | src/client/swarm.rs:127-133 | the address dialed is the first that the announcement gives for the peer |
| SwarmWaits.MdnsSucceedsExactly | src/client/swarm.rs:112-149 | success exactly when the first event among the peer's own connection and the announcements with an entry for it is that connection, or an announcement dialed and followed by a connection within 30 s |
| SwarmWaits.MdnsWaitFails | src/client/swarm.rs:112-149 | it waits exactly as long as there is neither such an event nor the swarm's end, and fails at once exactly if the dial is refused |
| SwarmWaits.MdnsDialsAre | src/client/swarm.rs:127-131 | what is dialed is the address of the first entry for the peer |
| SwarmWaits.Swarm.WaitForRendezvousDiscovery | src/client/swarm.rs:151-219 | comes to what the trace says, dials the addresses of the heading registration, and is over within 30 s |
| SwarmWaits.DiscoverySucceedsExactly | src/client/swarm.rs:151-219 | success with a peer if and only if the first decisive word from the point is a list that it heads, and it connects after that in time |
| SwarmWaits.DiscoveryFailsExactly | src/client/swarm.rs:195-209 | failure if and only if the first decisive word from the point, in time, is a failure |
| SwarmWaits.DiscoveryEndsWithTheSwarm | src/client/swarm.rs:157-193 | the swarm's end if and only if that comes before any word, or after a list before its peer connects |
| SwarmWaits.RendezvousDialsAre | src/client/swarm.rs:177-190 | what is dialed is every address of the heading registration, in order, each with the peer id at its end |
| SwarmWaits.ConnectedBeforehand | src/client/swarm.rs:155-194 | for every peer connected first and discovered then, and whatever follows: success exactly if it connects again in time |
| SwarmWaits.WithPeer | src/client/swarm.rs:178-184 | every dialed address ends in the peer id, which is added only if it is not there |
| TextForms.NumberAcceptance | src/types.rs:201-203 | exactly digits, at least one, perhaps with a plus sign in front, of a value within the bound |
| TextForms.NumberRoundTrip | src/types.rs:186-203 | a number is parsed back from its text up to the bound |
| TextForms.SpecRoundTrip | src/types.rs:186-214 | a spec is parsed back from its text exactly when its target has a colon |
| TextForms.SpecAcceptance | src/types.rs:196-213 | for any text cut at its first colon, what is parsed or which error is reported |
| TextForms.NoSeparator | src/types.rs:197-199 | the missing separator is reported exactly for texts without a colon |
| TextForms.DisplayNormalises | src/types.rs:186-214 | display of what was parsed parses to the same; it is the same text exactly when the port had no sign and no leading zero |
| TextForms.CodeAcceptance | src/pairing.rs:43-62 | exactly a number up to 99 and two words of the list, with dashes between, are recognised |
| TextForms.GeneratedCodesAreRecognised | src/pairing.rs:34-62 | every code that can be drawn is recognised, and the draw can be read off it |
| TextForms.GeneratedCodesAreDistinct | src/pairing.rs:34-40 | no two draws share a code |
| TextForms.RecognisedButNotGenerated | src/pairing.rs:43-62 | of the recognised codes, those that can be drawn are exactly those with a plainly written number |
| TextForms.SignedCodeIsRecognised | src/pairing.rs:59-61 | for any two words, a code with the number +7 is recognised, cannot be drawn, and is not the code with 7 |
| TextForms.OrderOfChecksIsIrrelevant | src/types.rs:168-183 | `/mdns/` and a peer id is an mDNS target, else a code a pairing code, else a multiaddr; no code starts with a slash, so the checks could come in either order |

## Left out

- libp2p itself: swarm building, Noise, Yamux, QUIC, hole punching, NAT detection, protocol negotiation. A stream is two byte queues that can end or break; `open_stream` may fail or succeed at any time, except to the node's own peer, where it fails.
- Whether a relay can dial an address, and when: no claim that a chain eventually succeeds. `EstablishableExactly` says which chains can, `NoDeadlock` that until its verdict a dialer or a relay on its path always has an event of its own to come, and `VerdictIsBounded` that there is a bounded number of those.
- The dial channel's capacity of 32 and the relay's own event loop: a handler's send works, or finds the channel closed. An accept channel that drops streams is a stream that nobody takes up.
- Every peer that accepts a jump stream runs this relay; what accepts a tunnel stream may be any program. Peers that run other code under the jump protocol are not part of this model.
- Text of multiaddrs and peer ids: `World` has a parser and a printer; only `OkMeansDelivered` and `AdvertisedTargetIsNotReached` need that the parser inverts the printer.
- SOCKS5 (RFC 1928): the library does the parsing, and only the choice by the first byte is here.
- Binding ports and connecting to targets: results only. What is copied after a connection is `TunnelCopy`. A port the listener has bound is taken for every later bind of it, on the loopback address as on all, as on Linux; other programs' ports show only as failures.
- `run_local_forward`: the same steps as a return stream, with another request.
- AcceptLoop: serves one client after the other, where the source spawns a task for each; the session machine has them in any interleaving.
- The dialer's loop over incoming streams takes them one at a time; the session machine lets it read several at once, and so allows more interleavings.
- Allocation: buffers are as large as their length says, and `usize` is 64 bits wide.
- Half-closed streams: the end of a direction is an event, but which side closes first is not constrained.
- `String::from_utf8_lossy` in the rejection of a reverse forward: the model keeps the bytes, which are valid text when they come from `send_reverse_ack`.
- Contents of the 256-word list: a set of lower-case words of at least three letters.
- `DialOpt` beyond the jump branch, key files, CLI parsing, prompts, logging, Ctrl-C, scripts and Docker: plumbing. The other branches of `run_dial` appear through the loops and sessions they call.
- Tokio's timers: a timeout is decided by the time at which an event is taken, and an event taken at the deadline still counts.
