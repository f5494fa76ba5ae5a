# paqetz, modelled

paqetz carries a layer-3 tunnel inside hand-written packets. This project models the parts of it that
do no I/O and are easiest to get subtly wrong, and proves what they promise for every input and every
run: the coalescer that merges inner packets, the synthetic TCP endpoint and the codec under it, the
capture-filter compiler, the replay window and the session above it, the decoy TLS handshake, the raw-IP
carriers, path-MTU reports and the DNS reader.

`dafny verify dfyconfig.toml` checks all of it.

## Layout

| files | what they hold |
|---|---|
| `Bytes`, `Checksum` | fixed-width integers over `int`, byte strings, the internet checksum |
| `Gso`, `Coalescing`, `Datapath` | `gso.rs`: parsing, runs, what splitting a superpacket means; the `Coalescer` object, the loop that drives it, and the loop of `tunnel.rs` that does |
| `Bpf`, `Filters` | `bpf.rs`: the machine, the generated programs and their correctness; the filters against every userspace parser |
| `Replay`, `Framing`, `Sessions`, `Tunnel` | `replay.rs`, `framing.rs`, `noise.rs`: the ring bitmap, header masking, a session, and two sessions over an arbitrary network |
| `Segments`, `Layouts`, `Emission` | `segment.rs`: what a packet is, parsing it back, the fields and options beyond that; writing it into a buffer |
| `Endpoints`, `Connections` | `endpoint.rs`: every operation over values; the mutable `Endpoint` held to them |
| `Conversations`, `Readiness`, `Writing`, `Numbering`, `Showing`, `Answering` | runs of one endpoint: sequence numbering, what must arrive before data leaves, connections taken up, everything a packet shows and to whom it goes, the responder's SYN+ACKs |
| `Acknowledging`, `Channels`, `Exchanges` | two endpoints and a channel: acknowledgements against unbounded positions, the stateless responder |
| `Records`, `RecordChains` | application-data records and the chain of them over whole runs |
| `Recognisers`, `Decoys`, `Hellos`, `HelloBuilding` | `cover.rs`: what is taken for a decoy, the pieces of one, the flights, and the builders |
| `RawIp`, `TooBig`, `Dns` | `rawip.rs`, `toobig.rs`, `dns.rs` |

Integer widths are subset types, so every wrap, narrowing and saturation is written out. Bit tests are
arithmetic. An object the source updates in place is a class whose methods are tied to a function on its
value (`View`), and the properties over runs are proved about that function.

Three things outside the model are parameters. The cipher is a pair of functions; `Tunnel` takes it to be
ideal, opening only what the peer sealed under that counter. The header mask's keystream is an arbitrary
function of the tag. The advertised window and the IP Identification are arbitrary functions of the
segment's kind and the packet counter. Clocks, buffer sizes and everything that arrives are inputs.

## Where the code and its documentation differ

- `gso.rs` says of `hold` that a packet added without asking `joins` or calling `take` is written on its
  own. It is not: it is appended to a run it does not continue, or replaces what was held.
  `Coalescing.HoldExact` says exactly when a `hold` is right, `Coalescing.UnaskedHoldLoses` shows a packet
  lost.
- `replay.rs` calls committing a stale counter harmless. It sets the bit of a live counter:
  `Replay.StaleCommitRefusesFreshCounter` shows one refused, `Replay.UncheckedCommit` says exactly when
  such a commit can never be noticed. `Session::open` always checks first, so the session is not affected.
- `gso.rs` says `joins` is true of anything with nothing held; it is false of a packet with no payload, and
  of anything unparsed. `Coalescing.CanHoldExact` says which, `Coalescing.EmptyDatagramDoesNotJoin` shows one.
- `endpoint.rs` says a late copy of a SYN+ACK already taken must not pull the acknowledgement back. More than
  2^20 bytes into the stream it does: `Acknowledging.LateAnswerExact` says exactly when, and
  `Acknowledging.LateAnswerPullsBack` is a run in which it happens.
- `endpoint.rs` says an initiator wants to open until answered. One whose real handshake was reset goes on
  wanting, while `handshake` has nothing left to write: `Conversations.WantsOpeningExact` and
  `Conversations.ResetStillWants`.
- `noise.rs` documents `Short` from `open` for an output buffer that is too small; the code reports it, like
  every failure of the cipher, as `Rejected`. `Sessions.OpenShortExact` says exactly when `Short` is returned,
  `Tunnel.SmallBufferRejects` what a small buffer gets, and `Tunnel.EmptyBufferRejects` a run that ends so.
- `bpf.rs` promises 240 ports. `Bpf.PortsProgramExact` shows that the generator is right on every frame
  exactly for 1 to 248; with none it accepts every unfragmented TCP segment long enough to have a port.
- UDP datagrams survive merging exactly when their length field agrees with their IP length
  (`Coalescing.MergedExact`); the code neither checks nor compares that field, and
  `Coalescing.MisstatedUdpMerges` gives two that are merged all the same.
- `endpoint.rs` moves `record_left` before the segment is known to have gone out, and saturates when a
  payload overruns its record. `RecordChains.FailedSendExact` and `RecordChains.DataChainExact` say exactly
  when the chain of records survives each, and `RecordChains.ShortBufferLosesCount` and
  `RecordChains.OverrunBreaksChain` show it broken.

## Model

| member | source | states |
|---|---|---|
| `Checksum.Sum` | crates/paqetz-tcpwire/src/checksum.rs:16-30 | the accumulator is the sum of the big-endian words, an odd last byte being a high half |
| `Checksum.Fold` | crates/paqetz-dp/src/gso.rs:436-442 | the folding loop ends, and gives the residue mod 65535 in which only zero folds to zero |
| `Checksum.FoldComplement` | crates/paqetz-tcpwire/src/checksum.rs:34-44 | the complement of that residue |
| `Checksum.PseudoHeader` | crates/paqetz-tcpwire/src/checksum.rs:56-65 | the sum of the twelve pseudo-header bytes |
| `Checksum.OnesAbsorbs` | crates/paqetz-tcpwire/src/checksum.rs:34-44 | folding part of a sum first changes nothing, so sums may be accumulated in pieces |
| `Checksum.FilledChecksumVerifies` | crates/paqetz-tcpwire/src/checksum.rs:16-50 | filling a zeroed field with the checksum of the rest makes the whole verify, for every length |
| `Gso.ParseWellFormed` | crates/paqetz-dp/src/gso.rs:86-133 | a parsed packet's headers and payload are a prefix of the bytes, with header sizes and length field as merging needs them |
| `Gso.ParseExact` | crates/paqetz-dp/src/gso.rs:86-133 | exactly mid-stream TCP and whole UDP, unfragmented and without IP options, can be part of a run |
| `Gso.CanonicalIsSameIffConsistent` | crates/paqetz-dp/src/gso.rs:358-382 | rewriting the UDP length changes the packet exactly when that field misstated it |
| `Gso.ChainExtends` | crates/paqetz-dp/src/gso.rs:140-189 | comparing a packet only with the last one held keeps every packet of the run alike, sized and contiguously numbered |
| `Gso.ChainNumbers` | crates/paqetz-dp/src/gso.rs:140-189 | the number of packet k of a run is the first's advanced by every payload byte before it, mod 2^32 |
| `Gso.SplitRestores` | crates/paqetz-dp/src/gso.rs:358-412 | cutting a run's payload at the segment size, with copied headers and advanced numbers, gives its packets back in order |
| `Gso.RunSplits` | crates/paqetz-dp/src/gso.rs:358-412 | the finished frame of every run of two or more, split as its own header says, is the packets it was made of |
| `Gso.FinishedIpVerifies` | crates/paqetz-dp/src/gso.rs:358-382 | the rewritten IP header folds to all ones |
| `Gso.PartialCompletes` | crates/paqetz-dp/src/gso.rs:823-881 | completing the partial checksum over an L4 header and any full-size payload equals the checksum from scratch |
| `Gso.RunChecksums` | crates/paqetz-dp/src/gso.rs:358-442 | both of the above, for the frame of every run |
| `Gso.RunCompletes` | crates/paqetz-dp/src/gso.rs:358-412 | read off the written header of every run: it asks for completion, and summing each full-size segment from where it says and placing the result where it says gives that segment the checksum computed from scratch; and the frame states its own whole length |
| `Coalescing.Coalescer.constructor` | crates/paqetz-dp/src/gso.rs:196-236 | a new coalescer holds nothing |
| `Coalescing.Coalescer.Hold` | crates/paqetz-dp/src/gso.rs:272-319 | the packet is appended to what is held, and the object still stands for all of it exactly when nothing was pending or `joins` said yes |
| `Coalescing.Coalescer.Take` | crates/paqetz-dp/src/gso.rs:321-341 | yields a write whenever anything is held; the write carries exactly what was held, alone and unsplit, or splitting back into it with every full-size segment's checksum completed as its own header says; nothing stays behind |
| `Coalescing.Coalescer.Clear` | crates/paqetz-dp/src/gso.rs:349-354 | forgets everything held |
| `Coalescing.CanHoldExact` | crates/paqetz-dp/src/gso.rs:260-270 | what can be held is what starts a run, and nothing else joins in any state |
| `Coalescing.EmptyDatagramDoesNotJoin` | crates/paqetz-dp/src/gso.rs:232-246 | a concrete packet that does not join with nothing held |
| `Coalescing.HoldExact` | crates/paqetz-dp/src/gso.rs:238-319 | holding a packet keeps the state right if and only if nothing was pending or `joins` accepted it |
| `Coalescing.UnaskedHoldLoses` | crates/paqetz-dp/src/gso.rs:272-319 | a concrete packet lost by an unasked `hold` |
| `Coalescing.Finish` | crates/paqetz-dp/src/gso.rs:358-382 | refuses exactly a length IPv4 cannot describe, a frame that ends before its checksum or a segment too long for its pseudo-header; otherwise rewrites length, checksums and UDP length; and touches nothing else either way |
| `Coalescing.PseudoHeaderSum` | crates/paqetz-dp/src/gso.rs:415-442 | the folded pseudo-header sum for one full-size segment, or nothing exactly for a short frame or a segment length past 65535 |
| `Coalescing.Drive` | crates/paqetz-dp/src/gso.rs:546-588 | for every list of packets: each is in exactly one write, in order, and splitting the writes gives every packet back, but for Identification, checksums and a UDP length that misstated it |
| `Datapath.WriteHeld` | crates/paqetz/src/tunnel.rs:3640-3646 | one write carrying exactly what is held, or none |
| `Datapath.WriteInner` | crates/paqetz/src/tunnel.rs:3606-3626 | what the packet cannot join goes out first; the packet is held, or written as it is if no run could hold it; order kept |
| `Datapath.WriteBatch` | crates/paqetz/src/tunnel.rs:3628-3638 | at the end of a batch everything in it is written and nothing is held |
| `Datapath.Pump` | crates/paqetz/src/tunnel.rs:3599-3652 | over any batches with one coalescer reused: each packet in exactly one write, in order, and splitting the writes gives every packet back |
| `Coalescing.CarriesPreserves` | crates/paqetz-dp/src/gso.rs:321-341 | splitting one write gives back what went into it; an unparsed packet byte for byte |
| `Coalescing.CoversPreserves` | crates/paqetz-dp/src/gso.rs:238-341 | splitting every write gives back every packet, once, in order |
| `Coalescing.MergedExact` | crates/paqetz-dp/src/gso.rs:358-382 | a merged packet comes back in every byte not recomputed if and only if it is TCP or its UDP length agreed with its IP length |
| `Coalescing.MisstatedUdpMerges` | crates/paqetz-dp/src/gso.rs:140-189 | a concrete datagram whose length field disagrees, which joins a run of itself |
| `Bpf.Run` | crates/paqetz-dp/src/bpf.rs:262-302 | the interpreter loop ends on every program and computes its semantics |
| `Bpf.PortsProgram` | crates/paqetz-dp/src/bpf.rs:209-251 | the pushes produce the program with those offsets, one instruction longer for each port |
| `Bpf.ProtocolProgram` | crates/paqetz-dp/src/bpf.rs:179-192 | likewise for one protocol |
| `Bpf.PushMtuTail` | crates/paqetz-dp/src/bpf.rs:197-206 | appends the eight instructions of the tail |
| `Bpf.TailVerdict` | crates/paqetz-dp/src/bpf.rs:197-206 | reached with the protocol in the accumulator, the tail accepts exactly unfragmented ICMP 3/4, past IP options |
| `Bpf.ChainVerdict` | crates/paqetz-dp/src/bpf.rs:229-240 | the chain of comparisons accepts exactly the listed ports, whatever their number up to the reach of a jump |
| `Bpf.PortsProgramCorrect` | crates/paqetz-dp/src/bpf.rs:209-251 | for 1 to 248 ports and every frame: terminates and accepts exactly IPv4 TCP to a listed port or a path-MTU report |
| `Bpf.ProtocolProgramCorrect` | crates/paqetz-dp/src/bpf.rs:179-192 | for every protocol number and every frame, likewise |
| `Bpf.PortsJumpsLand` | crates/paqetz-dp/src/bpf.rs:648-679 | every jump of the program lands on an instruction |
| `Bpf.PortsProgramExact` | crates/paqetz-dp/src/bpf.rs:209-251 | the generator is right on every frame if and only if there are 1 to 248 ports |
| `Bpf.NoPortsFails` | crates/paqetz-dp/src/bpf.rs:229-240 | with no ports, an unwanted frame is accepted |
| `Bpf.OneTooManyFails` | crates/paqetz-dp/src/bpf.rs:209-217 | with 249 ports, an offset no longer fits and a frame is misjudged |
| `Bpf.ManyMoreFails` | crates/paqetz-dp/src/bpf.rs:209-217 | with more than that, path-MTU reports are misjudged |
| `Filters.ProgramCorrect` | crates/paqetz-dp/src/bpf.rs:153-158 | whichever program is asked for accepts exactly what its kind of filter declares |
| `Filters.SegmentsPass` | crates/paqetz-tcpwire/src/segment.rs:508-604 | every frame the carrier parser takes for a listed port is accepted by the filter |
| `Filters.CarriedPass` | crates/paqetz-tcpwire/src/rawip.rs:369-447 | every frame the raw-IP parser takes is accepted by the filter for its protocol |
| `Filters.ReportsPass` | crates/paqetz-tcpwire/src/toobig.rs:74-130 | every path-MTU report is accepted by every filter |
| `Filters.EchoesOnly` | crates/paqetz-tcpwire/src/rawip.rs:416-433 | on protocol 1 the carrier takes exactly echoes of code zero |
| `Filters.ReportsAreNotPings` | crates/paqetz-tcpwire/src/rawip.rs:416-426 | no path-MTU report is taken for a ping |
| `Replay.ReplayWindow.constructor` | crates/paqetz-core/src/replay.rs:62-68 | an empty window |
| `Replay.ReplayWindow.Check` | crates/paqetz-core/src/replay.rs:82-90 | answers as the abstract window: newer, or in the window and unmarked |
| `Replay.ReplayWindow.Commit` | crates/paqetz-core/src/replay.rs:98-123 | the ring goes on standing for its set of marks, whatever the jump and wherever the counter |
| `Replay.ReplayWindow.ClearSkipped` | crates/paqetz-core/src/replay.rs:107-119 | clearing at most once round leaves exactly the bits that still belong |
| `Replay.ReplayWindow.Set` | crates/paqetz-core/src/replay.rs:131-137 | sets one bit, which is the mark of the one live counter that shares it |
| `Replay.SameBit` | crates/paqetz-core/src/replay.rs:125-146 | in the ring two counters share a bit only if they are the same |
| `Replay.RingRefinesSet` | crates/paqetz-core/src/replay.rs:82-123 | after any history of check-then-commit the ring answers every counter as a plain set of the committed ones would |
| `Replay.NeverTwice` | crates/paqetz-core/src/replay.rs:82-123 | a committed counter is refused for ever after |
| `Replay.UncheckedCommit` | crates/paqetz-core/src/replay.rs:92-123 | committing a refused counter can never be told from the set if and only if its word is still in the ring, or the live counter it aliases was seen or cannot be asked about again |
| `Replay.StaleCommitRefusesFreshCounter` | crates/paqetz-core/src/replay.rs:92-123 | a concrete stale commit after which a counter nobody sent is refused |
| `Framing.Mask` | crates/paqetz-core/src/framing.rs:103-114 | the little-endian header, each byte under the keystream |
| `Framing.Unmask` | crates/paqetz-core/src/framing.rs:122-133 | the header those bytes hide |
| `Framing.MaskRoundTrip` | crates/paqetz-core/src/framing.rs:103-133 | unmasking undoes masking for every header, tag and keystream |
| `Framing.UnmaskRoundTrip` | crates/paqetz-core/src/framing.rs:103-133 | and masking undoes unmasking |
| `Framing.MaskFlips` | crates/paqetz-core/src/framing.rs:103-114 | what is sent is the header with exactly the keystream's bits flipped |
| `Framing.HeaderLayout` | crates/paqetz-core/src/framing.rs:103-107 | counter first, then index, each low byte first |
| `Framing.PacketRoundTrip` | crates/paqetz-core/src/framing.rs:152-164 | a packet splits into the body it was made of and shows the header it was given |
| `Framing.SplitRoundTrip` | crates/paqetz-core/src/noise.rs:822-825 | a packet is determined by the header peeked from it and its body |
| `Sessions.Session.constructor` | crates/paqetz-core/src/noise.rs:465-506 | a fresh session: counter zero, empty window |
| `Sessions.Session.Seal` | crates/paqetz-core/src/noise.rs:676-727 | writes the packet for the next counter and counts it, or refuses for each of its reasons and counts nothing |
| `Sessions.SealExpiredExact` | crates/paqetz-core/src/noise.rs:676-690 | with room enough, sealing is refused as expired if and only if the session is 180 seconds old or its counters are spent |
| `Sessions.SealShortExact` | crates/paqetz-core/src/noise.rs:676-690 | and as too short if and only if there is not room enough |
| `Sessions.Session.Open` | crates/paqetz-core/src/noise.rs:740-762 | delivers and commits, or refuses for each of its reasons and leaves the session as it was |
| `Sessions.OpenShortExact` | crates/paqetz-core/src/noise.rs:729-762 | `open` reports `Short` if and only if the session is live and the packet is too short to be one |
| `Sessions.OpenExpiredExact` | crates/paqetz-core/src/noise.rs:740-745 | opening is refused as expired if and only if the session is 180 seconds old |
| `Sessions.OpenReplayedExact` | crates/paqetz-core/src/noise.rs:740-762 | and as replayed if and only if the session is live, the packet long enough and its own, and its counter is not admitted |
| `Sessions.OpenRejectedExact` | crates/paqetz-core/src/noise.rs:740-762 | and as rejected if and only if it is another session's, or admitted and not decrypted |
| `Sessions.NeedsRekeyExact` | crates/paqetz-core/src/noise.rs:769-773 | new keys are asked for if and only if this is the initiator at 120 seconds or 2^60 messages |
| `Sessions.RekeyComesFirst` | crates/paqetz-core/src/noise.rs:769-779 | an initiator's session that refuses to seal as spent has already asked for new keys; a responder never asks |
| `Tunnel.IdealIsSound` | crates/paqetz-core/src/noise.rs:676-762 | the ideal cipher meets what a session asks of its cipher |
| `Tunnel.AtMostOnce` | crates/paqetz-core/src/noise.rs:676-762 | in every run of two sessions over a network that drops, repeats, reorders or invents: everything delivered was sealed under that counter, and no counter is delivered twice |
| `Tunnel.NothingInvented` | crates/paqetz-core/src/noise.rs:740-762 | what comes out is a sub-multiset of what went in |
| `Tunnel.RefusedLeavesNoTrace` | crates/paqetz-core/src/noise.rs:729-762 | removing every refused event from a run changes nothing after it |
| `Tunnel.ExpiredEndsDoNothing` | crates/paqetz-core/src/noise.rs:676-762 | after any run, an event at an end 180 seconds past its own beginning changes nothing |
| `Tunnel.FirstArrivalDelivers` | crates/paqetz-core/src/noise.rs:740-762 | a sealed packet that arrives is opened to its plaintext exactly when the set of delivered counters accepts it, and is a replay otherwise |
| `Tunnel.SmallBufferRejects` | crates/paqetz-core/src/noise.rs:729-762 | a packet the window admits is opened if its plaintext fits the buffer and is `Rejected` if it does not |
| `Tunnel.EmptyBufferRejects` | crates/paqetz-core/src/noise.rs:729-762 | a concrete run that ends so |
| `Tunnel.SealingProduces` | crates/paqetz-core/src/noise.rs:676-727 | each seal yields the packet of a counter never used before |
| `Segments.OptionBytesSize` | crates/paqetz-tcpwire/src/segment.rs:160-178 | the option length the header is sized by is the length written, for every layout |
| `Segments.ChecksumsVerify` | crates/paqetz-tcpwire/src/segment.rs:334-353 | both checksums of every packet verify, odd lengths included |
| `Segments.FindTimestamp` | crates/paqetz-tcpwire/src/segment.rs:607-633 | the option walk ends on every block and finds the first whole timestamp before an end of list |
| `Segments.SynTimestamp` | crates/paqetz-tcpwire/src/segment.rs:422-462 | in a written layout the timestamp is found if and only if no end of list precedes it |
| `Segments.RoundTrip` | crates/paqetz-tcpwire/src/segment.rs:521-604 | parsing a packet gives back addresses, ports, numbers, flags, window, timestamp and payload, whatever padding follows |
| `Segments.ParseExact` | crates/paqetz-tcpwire/src/segment.rs:521-604 | exactly whole IPv4 datagrams with a whole TCP header are segments, and every field is read where the two header lengths put it, IP options included |
| `Layouts.OptionsRead` | crates/paqetz-tcpwire/src/segment.rs:422-462 | for every layout and kind the option block reads back as the layout's options, in order, with the values it announces |
| `Layouts.PacketOptions` | crates/paqetz-tcpwire/src/segment.rs:953-983 | the block found by an emitted packet's own header length is exactly that layout |
| `Layouts.HeaderShows` | crates/paqetz-tcpwire/src/segment.rs:279-318 | service, Identification, Don't Fragment, TTL and urgent pointer are where a reader looks for them |
| `Emission.Cursor.Put` | crates/paqetz-tcpwire/src/segment.rs:204-214 | appends the bytes, or reports what was needed and writes nothing |
| `Emission.OptionLen` | crates/paqetz-tcpwire/src/segment.rs:160-178 | the loop gives the layout's length |
| `Emission.WriteOptions` | crates/paqetz-tcpwire/src/segment.rs:422-462 | writes exactly the layout's bytes, if they fit |
| `Emission.WriteAt` | crates/paqetz-tcpwire/src/segment.rs:464-471 | overwrites those bytes and no others, or reports `Short` and writes nothing |
| `Emission.EmitParts` | crates/paqetz-tcpwire/src/segment.rs:250-356 | writes exactly the packet for the joined parts and touches nothing past it, or refuses for each of its reasons and touches nothing |
| `Connections.Endpoint.constructor` | crates/paqetz-tcpwire/src/endpoint.rs:302-349 | the starting state for each carrier |
| `Connections.Endpoint.EmitPieces` | crates/paqetz-tcpwire/src/endpoint.rs:761-776 | one segment at the next number; the counter moves and nothing is owed, only if it went out |
| `Connections.Endpoint.Syn` | crates/paqetz-tcpwire/src/endpoint.rs:547-565 | a SYN under the first one's timestamp |
| `Connections.Endpoint.OpenNext` | crates/paqetz-tcpwire/src/endpoint.rs:505-528 | the opening segment due in each carrier, role and phase, or none and no change |
| `Connections.Endpoint.NumberFrom` | crates/paqetz-tcpwire/src/endpoint.rs:533-541 | number and timestamp fixed together, once |
| `Connections.Endpoint.Answer` | crates/paqetz-tcpwire/src/endpoint.rs:573-582 | a SYN+ACK one below the next number |
| `Connections.Endpoint.Acknowledge` | crates/paqetz-tcpwire/src/endpoint.rs:589-591 | a bare acknowledgement that takes no number |
| `Connections.Endpoint.SendData` | crates/paqetz-tcpwire/src/endpoint.rs:649-698 | a data segment with a record header only at a boundary, its bytes counted once out; the record count moves regardless |
| `Connections.Endpoint.Bare` | crates/paqetz-tcpwire/src/endpoint.rs:708-717 | a payload as it is, counted once out |
| `Connections.Endpoint.Close` | crates/paqetz-tcpwire/src/endpoint.rs:726-732 | a FIN that takes one number |
| `Connections.Endpoint.MarkEstablished` | crates/paqetz-tcpwire/src/endpoint.rs:735-741 | the SYN's byte is counted once |
| `Connections.Endpoint.MoveTo` | crates/paqetz-tcpwire/src/endpoint.rs:945-958 | forward, or back past the reordering span, or wherever when relearning |
| `Connections.Endpoint.TakeUp` | crates/paqetz-tcpwire/src/endpoint.rs:622-634 | the state a rejoined connection starts from |
| `Connections.Endpoint.MoveRemote` | crates/paqetz-tcpwire/src/endpoint.rs:443-448 | a new address relearns the peer's numbering and keeps our own |
| `Connections.Endpoint.OnReceive` | crates/paqetz-tcpwire/src/endpoint.rs:871-933 | the new state, and what is handed upward, for every segment in every state |
| `Connections.AnswerStateless` | crates/paqetz-tcpwire/src/endpoint.rs:1014-1055 | the SYN+ACK composed from a SYN alone |
| `Endpoints.TimestampEchoed` | crates/paqetz-tcpwire/src/endpoint.rs:871-882 | whatever a segment with a timestamp was, the next one out echoes it |
| `Endpoints.RejoinEchoes` | crates/paqetz-tcpwire/src/endpoint.rs:622-634 | a connection taken up echoes the peer's segment at once |
| `Endpoints.AdvertisedMss` | crates/paqetz-tcpwire/src/endpoint.rs:336-345 | the segment size announced is the smaller of the profile's and the one asked for |
| `Endpoints.AnswersSynExact` | crates/paqetz-tcpwire/src/endpoint.rs:402-415 | exactly SYN and ACK without RST or FIN, acknowledging our SYN, answers it |
| `Endpoints.AnswerNeverCloses` | crates/paqetz-tcpwire/src/endpoint.rs:402-415 | and what answers it closes nothing |
| `Endpoints.ReceiveClosesExact` | crates/paqetz-tcpwire/src/endpoint.rs:871-933 | an open end is closed if and only if a reset arrives, or a FIN once the peer's numbering is known |
| `Endpoints.HandedExact` | crates/paqetz-tcpwire/src/endpoint.rs:871-933 | exactly a payload that resets, opens and closes nothing is handed up, once the peer's numbering is known |
| `Endpoints.DataRefusals` | crates/paqetz-tcpwire/src/endpoint.rs:657-676 | data is refused as not established if and only if the end is not ready, and as too long for a record that cannot be opened |
| `Endpoints.NoRecordsNoBoundary` | crates/paqetz-tcpwire/src/endpoint.rs:593-601 | an end that wears no records is always between them |
| `Endpoints.ClockTicks` | crates/paqetz-tcpwire/src/endpoint.rs:966-974 | at any rate the clock reads as many whole ticks past its base as the milliseconds hold, the product wrapping at 64 bits and the reading at 32 |
| `Acknowledging.AdvanceExact` | crates/paqetz-tcpwire/src/endpoint.rs:945-958 | within half the sequence space, the acknowledgement follows the furthest unbounded position if and only if the arrival ends at most 2^20 behind it, or not behind at all while relearning; otherwise it falls back to the arrival |
| `Acknowledging.AdvanceRelearns` | crates/paqetz-tcpwire/src/endpoint.rs:945-958 | after a guess or a move, the first segment sets the position outright |
| `Acknowledging.ReceiveMoves` | crates/paqetz-tcpwire/src/endpoint.rs:871-933 | which arrivals move the acknowledgement, SYNs and SYN+ACKs included, and to what end |
| `Acknowledging.LateAnswerExact` | crates/paqetz-tcpwire/src/endpoint.rs:888-905 | a late copy of the SYN+ACK leaves the acknowledgement alone if and only if it is at most 2^20 behind; beyond that it pulls it back to where the connection began |
| `Acknowledging.LateAnswerPullsBack` | crates/paqetz-tcpwire/src/endpoint.rs:888-905 | a concrete run from a new client in which it does |
| `Acknowledging.MovePullsBack` | crates/paqetz-tcpwire/src/endpoint.rs:435-448 | after a move, an arrival one byte behind pulls the acknowledgement back |
| `Acknowledging.NamesAnotherExact` | crates/paqetz-tcpwire/src/endpoint.rs:417-433 | within half the sequence space, an acknowledgement names another connection if and only if it is more than 2^20 away from this end's numbering, either way |
| `Acknowledging.OwesAckExact` | crates/paqetz-tcpwire/src/endpoint.rs:603-612 | since the last segment out, an acknowledgement is owed if and only if two arrivals carried a payload |
| `Acknowledging.SendingPays` | crates/paqetz-tcpwire/src/endpoint.rs:761-776 | any segment that goes out settles it |
| `Conversations.WantsOpeningExact` | crates/paqetz-tcpwire/src/endpoint.rs:376-388 | an initiator has an opening segment to write if and only if it wants to open and its handshake was not closed |
| `Conversations.InitiatorNeverAnswers` | crates/paqetz-tcpwire/src/endpoint.rs:871-933 | no run takes an initiator to where only a responder waits, so the above holds of every one |
| `Conversations.ResetStillWants` | crates/paqetz-tcpwire/src/endpoint.rs:376-388 | a reset client that wants to open and has nothing to open with |
| `Conversations.StepKeeps` | crates/paqetz-tcpwire/src/endpoint.rs:302-957 | every operation of a run, of every carrier and role, keeps the numbering invariant |
| `Conversations.EveryRunTiles` | crates/paqetz-tcpwire/src/endpoint.rs:505-741 | over every run from a new endpoint: no gap or overlap after the first data byte, every repeated SYN the same SYN, its byte counted once, and no data before an opening end has sent its SYN |
| `Conversations.TilesPairwise` | crates/paqetz-tcpwire/src/endpoint.rs:464-473 | the same between any two segments of a run |
| `Readiness.DataNeedsReady` | crates/paqetz-tcpwire/src/endpoint.rs:366-374 | under any carrier and numbering, only a ready end puts a payload on the wire |
| `Readiness.ClientDataFollowsAnswer` | crates/paqetz-tcpwire/src/endpoint.rs:505-528 | over every run of a client that waits for its handshake, a SYN+ACK acknowledging its SYN arrived before any event that wrote data |
| `Readiness.ResponderDataFollowsHandshake` | crates/paqetz-tcpwire/src/endpoint.rs:871-913 | over every run of a responder that waits, a SYN and after it an acknowledgement arrived before any event that wrote data |
| `Writing.ActWrites` | crates/paqetz-tcpwire/src/endpoint.rs:505-776 | what every operation that writes puts on the wire: the acknowledgement held, the next number or one below it for a SYN, and the number moved by what was written |
| `Writing.ReceiveOrderly` | crates/paqetz-tcpwire/src/endpoint.rs:735-741 | an arrival moves our own numbering by at most the byte of our SYN, once |
| `Showing.ActShows` | crates/paqetz-tcpwire/src/endpoint.rs:761-797 | every packet an endpoint writes, under either numbering: from its own address to the one it holds, with the flags of its kind, the look of this packet, the payload, the fragment bit and the TTL |
| `Showing.ActShowsOptions` | crates/paqetz-tcpwire/src/endpoint.rs:779-797 | and, found by its own header length, the options of its layout with this moment's clock, the peer's timestamp echoed and the segment size agreed |
| `Showing.EverySegmentAddressed` | crates/paqetz-tcpwire/src/endpoint.rs:435-448 | over every run from any state, each segment goes to the address last moved to and shows this end's own clock |
| `Showing.NewSegmentsAddressed` | crates/paqetz-tcpwire/src/endpoint.rs:302-349 | from a new endpoint, to the address it was given until it is moved |
| `Showing.RejoinedSegmentsAddressed` | crates/paqetz-tcpwire/src/endpoint.rs:622-634 | from a connection taken up, to where the peer's segment came from, by the clock it was given |
| `Showing.SynProvesItself` | crates/paqetz-tcpwire/src/endpoint.rs:530-541 | however long after it was numbered a SYN goes out, its number is the one its own timestamp gives |
| `Showing.AnswerShows` | crates/paqetz-tcpwire/src/endpoint.rs:1014-1055 | everything the SYN+ACK composed from a SYN alone shows |
| `Showing.HandedUp` | crates/paqetz-tcpwire/src/endpoint.rs:871-933 | of whatever a peer wrote, what is handed up is the bytes it put on the stream, and nothing of a SYN, SYN+ACK, pure acknowledgement or FIN |
| `Showing.CounterCountsPackets` | crates/paqetz-tcpwire/src/endpoint.rs:761-776 | over every run the counter that varies a packet's look counts the packets written, mod 2^32 |
| `Showing.OpaqueNumbers` | crates/paqetz-tcpwire/src/endpoint.rs:464-491 | under opaque numbering each packet is 128 past the last, and its acknowledgement drifts beside it |
| `Numbering.EveryRunNumbers` | crates/paqetz-tcpwire/src/endpoint.rs:464-473 | over every run of an end past its handshake, each segment starts where the one before it ended, from the end's own next number |
| `Numbering.EveryUnwaitingRunNumbers` | crates/paqetz-tcpwire/src/endpoint.rs:302-349 | so for every end that waits for no handshake, from its initial number |
| `Numbering.ShownOpeningPrecedes` | crates/paqetz-tcpwire/src/endpoint.rs:567-582 | what follows a SYN or SYN+ACK sent for show starts one past it and past whatever was sent between |
| `Numbering.EveryRejoinedRunNumbers` | crates/paqetz/src/tunnel.rs:1904-1926 | over every run after a `rejoin`, from any state, bytes are numbered without gap or overlap from what the peer's segment acknowledged |
| `Numbering.RejoinedFirstByte` | crates/paqetz-tcpwire/src/endpoint.rs:622-634 | its first byte is the one the peer acknowledged |
| `Numbering.EveryRejoinedRunTiles` | crates/paqetz/src/tunnel.rs:1904-1926 | and the run tiles as every other does |
| `Channels.EveryExchange` | crates/paqetz-tcpwire/src/endpoint.rs:302-958 | over every run of two new endpoints and a channel that loses, repeats and reorders: every segment has an unbounded place within its sender's stream, each acknowledgement written is the furthest end heard by then mod 2^32 or the first guess, and what is heard is what the peer sent |
| `Channels.EveryExchangeFrom` | crates/paqetz-tcpwire/src/endpoint.rs:302-958 | the same from any such moment on |
| `Channels.AcknowledgementsOnTheWire` | crates/paqetz-tcpwire/src/endpoint.rs:464-491 | of any two acknowledgements an end wrote the later claims no less, and none passes where something the peer wrote ended or the peer's stream reaches |
| `Channels.NextAcknowledgement` | crates/paqetz-tcpwire/src/endpoint.rs:761-797 | the next segment written after any run acknowledges exactly the furthest end heard, which the peer had sent |
| `Channels.AnswerStaysBehind` | crates/paqetz/src/tunnel.rs:1928-1934 | the SYN+ACK a fake handshake's responder sends for show, acknowledging the first byte of a segment it heard, claims no more than is heard and sent |
| `Channels.TimelyExact` | crates/paqetz-tcpwire/src/endpoint.rs:945-958 | the arrivals excluded from those runs are exactly the ones the acknowledgement does not follow |
| `Channels.PositionsCount` | crates/paqetz-tcpwire/src/endpoint.rs:649-741 | the unbounded positions move by what is written and by nothing else, but for a renumbering before the SYN |
| `Channels.TakenUpInTouch` | crates/paqetz/src/tunnel.rs:1904-1926 | taken up from any segment that acknowledges the SYN+ACK, a connection nothing remembered is as one that was remembered |
| `Channels.StatelessExchange` | crates/paqetz-tcpwire/src/endpoint.rs:1014-1055 | a client opening against a forgotten SYN+ACK, a `rejoin` from whichever of its segments arrives, and every run of both from then on: the same |
| `Answering.ReceiveReplying` | crates/paqetz-tcpwire/src/endpoint.rs:871-933 | whatever arrives at a responder, its SYN+ACK's byte is counted at most once |
| `Answering.EveryResponderTiles` | crates/paqetz-tcpwire/src/endpoint.rs:505-741 | over every run of a handshaking responder: repeated SYN+ACKs carry one number, and data starts one past it |
| `Exchanges.RejoinNumbers` | crates/paqetz-tcpwire/src/endpoint.rs:622-634 | a rejoined end sends from what the peer acknowledged and acknowledges that segment's end |
| `Exchanges.ClientHeardOnly` | crates/paqetz-tcpwire/src/endpoint.rs:871-913 | a client that heard only one SYN+ACK number, however often, acknowledges one past it in every data segment it ever sends |
| `Exchanges.AnswerCompletes` | crates/paqetz-tcpwire/src/endpoint.rs:1014-1055 | the stateless SYN+ACK goes from here to where the SYN came from and completes the handshake of the client whose SYN it answers |
| `Exchanges.StatelessAgrees` | crates/paqetz-tcpwire/src/endpoint.rs:622-634 | whichever data segment arrives first, a responder that kept nothing numbers and acknowledges like one that kept the handshake: from isn + 1, and that segment's end |
| `Records.UnwrapOpened` | crates/paqetz-tcpwire/src/cover.rs:479-522 | a payload is unwrapped from the record its header opens if and only if it fits it |
| `Records.UnwrapExact` | crates/paqetz-tcpwire/src/cover.rs:509-522 | exactly what begins as an application-data record declaring at least what follows and no more than a record may hold is unwrapped |
| `Records.OutstandingContinues` | crates/paqetz-tcpwire/src/endpoint.rs:664-684 | bytes of the open record only bring its end nearer, however the chain before it was cut |
| `Records.OutstandingRestarts` | crates/paqetz-tcpwire/src/endpoint.rs:593-601 | at a boundary what follows is walked on its own |
| `RecordChains.DataChainExact` | crates/paqetz-tcpwire/src/endpoint.rs:662-696 | a data segment keeps the chain if and only if it fitted its record or overran it by whole records |
| `RecordChains.OverrunBreaksChain` | crates/paqetz-tcpwire/src/endpoint.rs:677-684 | a concrete overrun that breaks it |
| `RecordChains.FailedSendExact` | crates/paqetz-tcpwire/src/endpoint.rs:677-694 | a send that failed keeps the count right if and only if records are off, the end was not ready, or the count did not move |
| `RecordChains.ShortBufferLosesCount` | crates/paqetz-tcpwire/src/endpoint.rs:677-694 | a buffer too short, after which the count is wrong |
| `RecordChains.RunInStep` | crates/paqetz-tcpwire/src/endpoint.rs:593-717 | over every run that keeps to its records: the stream is a chain with exactly the counted bytes outstanding, complete exactly at a boundary with no decoy flight half sent |
| `RecordChains.StreamGrows` | crates/paqetz-tcpwire/src/endpoint.rs:649-717 | what a reader of the packets sees appended is the header due and the payload |
| `RecordChains.HeaderedPayloadUnwraps` | crates/paqetz-tcpwire/src/cover.rs:509-522 | a payload sent with a header is recovered from the parsed packet if and only if it fits its record |
| `Recognisers.CheckCover` | crates/paqetz-tcpwire/src/cover.rs:540-567 | the loop ends, and says whether this is nothing but whole records led by a handshake or a change of cipher |
| `Recognisers.ChainPrefix` | crates/paqetz-tcpwire/src/cover.rs:540-567 | cut anywhere, records are a run of records only at a boundary |
| `Recognisers.ChainComplete` | crates/paqetz-tcpwire/src/cover.rs:540-567 | cover leaves a walker of the stream at a boundary |
| `Recognisers.CoverIsNotWrapped` | crates/paqetz-tcpwire/src/cover.rs:534-567 | nothing is both cover and a wrapped packet |
| `Recognisers.OwedBounded` | crates/paqetz-tcpwire/src/cover.rs:584-621 | whatever arrives, never more is owed than the rest of the largest hello, and only by what is not cover |
| `Recognisers.OwedExact` | crates/paqetz-tcpwire/src/cover.rs:594-621 | exactly the first part of a hello is owed anything, and exactly its missing bytes |
| `Recognisers.SessionIdExact` | crates/paqetz-tcpwire/src/cover.rs:628-638 | the identifier is read exactly from a hello that has reached it |
| `Decoys.Shuffle` | crates/paqetz-tcpwire/src/cover.rs:644-655 | the in-place swaps, which only permute |
| `Decoys.EncapsulationKey` | crates/paqetz-tcpwire/src/cover.rs:210-228 | every twelve-bit coefficient unpacks to its draw reduced mod 3329, and the seed's tail ends the key |
| `Decoys.WalkAll` | crates/paqetz-tcpwire/src/cover.rs:181-187 | any list of extensions is read back whole from its bytes |
| `Decoys.ShuffledEncodes` | crates/paqetz-tcpwire/src/cover.rs:640-655 | shuffling encoded extensions is encoding shuffled ones |
| `HelloBuilding.FlightFilled` | crates/paqetz-tcpwire/src/cover.rs:168-196 | filling the three lengths in afterwards gives the message that states them |
| `HelloBuilding.BuildClientHello` | crates/paqetz-tcpwire/src/cover.rs:283-396 | a hello for exactly the names of 1 to 253 bytes, as specified byte for byte |
| `HelloBuilding.BuildServerHello` | crates/paqetz-tcpwire/src/cover.rs:407-438 | the answer, byte for byte |
| `HelloBuilding.BuildClientFinished` | crates/paqetz-tcpwire/src/cover.rs:448-455 | the closing flight, byte for byte |
| `HelloBuilding.OfferedPsk` | crates/paqetz-tcpwire/src/cover.rs:231-254 | the ticket and its binder under their lengths |
| `Hellos.ClientExtensionsSize` | crates/paqetz-tcpwire/src/cover.rs:283-396 | the extensions of a hello take 1681 bytes and the name's, whatever the shuffle, so the hello 1795 and the name's |
| `Hellos.ClientHelloReads` | crates/paqetz-tcpwire/src/cover.rs:682-708 | a reader following every length of a hello finds exactly its extensions |
| `Hellos.ClientHelloSound` | crates/paqetz-tcpwire/src/cover.rs:283-396 | those are the fixed set permuted, every length nested in any of them is exact, and the one server name is the name |
| `Hellos.ClientHelloShows` | crates/paqetz-tcpwire/src/cover.rs:231-254 | the hello shows its random numbers and identifier where a reader looks, and offers its ticket and binder last |
| `Hellos.ClientHelloOffers` | crates/paqetz-tcpwire/src/cover.rs:290-355 | whatever their order, exactly these sixteen extensions stand between the GREASE values, early data among them |
| `Hellos.SharesRead` | crates/paqetz-tcpwire/src/cover.rs:328-341 | the key shares read back as the three offered |
| `Hellos.ClientHelloPrefixes` | crates/paqetz-tcpwire/src/cover.rs:540-638 | of a hello only the whole is cover; every part of 44 bytes or more owes exactly what is missing, and shorter ones nothing; the identifier is read from 76 bytes on |
| `Hellos.ClientHelloOutstanding` | crates/paqetz-tcpwire/src/cover.rs:569-594 | the first part of a hello leaves a walker of the stream expecting exactly the rest |
| `Hellos.ServerHelloPrefixes` | crates/paqetz-tcpwire/src/cover.rs:407-438 | the answer is cover at its two record boundaries and nowhere else |
| `Hellos.ServerHelloReads` | crates/paqetz-tcpwire/src/cover.rs:407-438 | the answer echoes the client's identifier, shows its own random numbers, and reads back to exactly its three extensions with every length exact |
| `Hellos.ClientFinishedPrefixes` | crates/paqetz-tcpwire/src/cover.rs:448-455 | so is the closing flight |
| `Hellos.ClientFinishedReads` | crates/paqetz-tcpwire/src/cover.rs:448-455 | it is a change of cipher and one record of exactly what it was given |
| `RawIp.Carrier.constructor` | crates/paqetz-tcpwire/src/rawip.rs:202-212 | a carrier that has sent nothing |
| `RawIp.Carrier.SetRemote` | crates/paqetz-tcpwire/src/rawip.rs:221-223 | follows the peer and changes nothing else |
| `RawIp.Carrier.Answer` | crates/paqetz-tcpwire/src/rawip.rs:243-248 | moves a replying end and no other |
| `RawIp.Carrier.Data` | crates/paqetz-tcpwire/src/rawip.rs:255-346 | writes exactly the packet and counts it, or refuses and changes nothing |
| `RawIp.ChecksumsVerify` | crates/paqetz-tcpwire/src/rawip.rs:322-344 | the IP header verifies, and a ping's body does at every length |
| `RawIp.OuterShows` | crates/paqetz-tcpwire/src/rawip.rs:272-316 | service, Identification, Don't Fragment and TTL are where a reader looks for them, and a ping is a request or a reply as configured |
| `RawIp.RoundTrip` | crates/paqetz-tcpwire/src/rawip.rs:379-447 | for each shell and every payload that fits, parsing gives back addresses, echo numbers and payload, whatever padding follows |
| `RawIp.ParseExact` | crates/paqetz-tcpwire/src/rawip.rs:379-447 | exactly the datagrams of the shell's protocol that hold its whole header are taken |
| `RawIp.ShellsAre` | crates/paqetz-tcpwire/src/rawip.rs:86-105 | the protocol number and the cost of each shell |
| `RawIp.SplicedReadsAlike` | crates/paqetz-tcpwire/src/rawip.rs:464-477 | with any optional GRE words put in under their flag bits, and any other flags set, the packet reads as it did |
| `RawIp.OptionalWordsReadPast` | crates/paqetz-tcpwire/src/rawip.rs:464-477 | a checksum, a key and a sequence word, each there or not and announced by its own bit, are read past |
| `RawIp.HistoryKeeps` | crates/paqetz-tcpwire/src/rawip.rs:243-270 | over any history: the counter counts what went out, a replying end holds what it was last told, an asking end what it began with |
| `RawIp.NextPing` | crates/paqetz-tcpwire/src/rawip.rs:289-317 | after any history a reply quotes the last identifier and sequence told, and a request keeps its identifier and numbers itself consecutively |
| `TooBig.ReportOpens` | crates/paqetz-tcpwire/src/toobig.rs:84-110 | a report with any IP options is read as its MTU and its quotation |
| `TooBig.ReportOnSegment` | crates/paqetz-tcpwire/src/toobig.rs:84-180 | a report quoting any part of a sent segment from its IP header on describes that connection and no other, as far as the quotation reaches, and gives the exact shortfall |
| `TooBig.ReportOnCarried` | crates/paqetz-tcpwire/src/toobig.rs:84-180 | a report on a raw-IP packet describes that pair of addresses and that protocol and nothing else, whatever ports are asked about, but for the two protocols that have them, and gives the exact shortfall |
| `TooBig.ReportExact` | crates/paqetz-tcpwire/src/toobig.rs:84-130 | exactly unfragmented ICMP 3/4 quoting at least an IPv4 header is a report |
| `Dns.SkipName` | crates/paqetz-net4/src/dns.rs:247-279 | ends on every message, pointers that loop included; succeeds exactly when the name reaches its root by at most 16 pointers inside the message, and then returns what follows it, past the start and within the message |
| `Dns.NameStepped` | crates/paqetz-net4/src/dns.rs:247-279 | a written name, plain or compressed, is stepped over exactly, if and only if what it points at resolves |
| `Dns.PointerAtPlainName` | crates/paqetz-net4/src/dns.rs:247-279 | a pointer at any name written out in full resolves |
| `Dns.EncodeQuery` | crates/paqetz-net4/src/dns.rs:204-241 | a query for exactly the usable names, with the labels between dots |
| `Dns.QueryReads` | crates/paqetz-net4/src/dns.rs:204-241 | a query asks under its id, with recursion, one internet-address question; it is eighteen bytes longer than its name, is stepped over to its last four bytes, and its labels read back as the name |
| `Dns.StrippedExact` | crates/paqetz-net4/src/dns.rs:205 | one dot at the end of a name is dropped and nothing else |
| `Dns.ParseAnswers` | crates/paqetz-net4/src/dns.rs:285-373 | the loops end, with each refusal for its own reason |
| `Dns.ReplyReads` | crates/paqetz-net4/src/dns.rs:285-373 | of every reply, to any question and with any flags: refused as not the answer, not a response, no such name or refused, in that order; and of any other its four-byte internet A records, in order, if and only if every name in it resolves |
| `Dns.OnlyRepliesRead` | crates/paqetz-net4/src/dns.rs:285-373 | nothing but such a reply is read: every message read is one, with exactly those addresses |
| `Dns.TooShortExact` | crates/paqetz-net4/src/dns.rs:288-291 | too short means under twelve bytes and nothing else |

## Left out

- The Noise handshake, ChaCha8, BLAKE2s, X25519 and `mac1`: library calls; `Tunnel` assumes an ideal cipher.
- `carrier_numbers`, `syn_tag`, `syn_ack_isn`, `icmp_id_base`: hash outputs with little to prove beyond a range.
- What Linux does with a GSO frame and its partial checksum: splitting and completion are defined as `gso.rs` and its test module define them.
- Opaque sequencing beyond what each packet shows: its numbers describe nothing by design, so no stream law is claimed of them.
- The window jitter, the choice of IP Identification and the OS profile constants: appearance; the model takes them as arbitrary.
- A second `rejoin` inside a run: each starts a numbering of its own, so runs are stated from one `rejoin` to the next.
- An `answer` given some other acknowledgement than the tunnel gives it: `Channels` marks such a segment as dictated and makes no claim of it.
- Writes the device refuses: `Datapath` takes every write to succeed.
- Sockets, rings, the TUN device, routes, firewall rules, configuration, SOCKS5, retransmission and rotation: I/O or text around it.
- Accessors such as a session's epoch, `Shell::is_empty` or an endpoint's phase: easy members.
- Sessions.Session.Open: does not say what a cipher failure leaves in the output buffer, which the library does not promise.
- Sessions.Session.Seal: likewise when the cipher itself fails.
- Answering.EveryResponderTiles: leaves out `answer` and `number_syn`, which the callers use for the other carriers and the other role.
