# Beetle: a verified model

Beetle is an assistant runtime that runs on small devices and on hosts. This project models its hardest
stateful parts in Dafny and proves what they are for.

**WebSocket client** (`Wss*.dfy`, `components/beetle_wss/beetle_wss.c`). A class `Client` with a growable
receive buffer, a reassembly buffer, close flags and a masked frame writer, over a connection whose reads
hand over any non-empty piece of what is still to come, whose writes take any non-empty piece of what is
offered, and which may time out or break at any call. `WssDecoder` says what a client that had the whole
stream at once would deliver; `Client.Recv` refines it call by call, and `WssRuns` carries this over to
whole runs: how the stream is cut into reads and where timeouts fall cannot be seen in the results.
`WssFrames` holds the frame parser a server would use, and proves that it reads back what was sent. SHA-1
and Base64, used for the handshake answer, are proved against FIPS 180-4 and RFC 4648. `WssExamples` and
`WssSha1Example` are the examples of these standards.

**Chat streams** (`Chat*.dfy`, `src/chat_stream.rs`). `ChatFrames` has the event frames with a reader for
them, `ChatChunks` the greedy cutting of a text into frames, `ChatQueue` the bounded queue with its history,
`ChatBroker` the broker. In the broker other threads act whenever a lock is free (`Others`): the receiver
takes frames, times out or goes away, announcements and errors are pushed, the queue is closed, other streams
open and close. Only the agent thread sends the deltas of its stream. `ChatReceiver` takes one stream apart
into the steps of its threads, to say what a receive that got no frame means for the next.

**Capability packages** (`Cap*.dfy`, `src/capability_package.rs`). `CapPolicy` merges tool policies and says
what a merge means by the set of overlays that went into it. `CapModel`, `CapRegistry` and `CapStore` have
the data, its validation, the sorted registry and the invariant `Good` of the store; `CapLifecycle` what each
operation leaves behind; `CapOperations` the operations in the order in which they read and write; `CapRuns`
sequences of operations and the policy set built between them; `CapPaths` the Standard layout; `CapRules` the rules once more, in
fields and numbers; `CapExample`
runs that end where one would not expect.

**Bus** (`Bus.dfy`, `src/bus.rs`): the queue and its depth counter, updated in separate steps, under every
interleaving. **Features** (`Features.dfy`, `scripts/expand_cargo_features.py`): the depth-first closure of a
feature graph. **Background timer** (`BgTimer.dfy`, `src/bg_timer.rs`): grids, wake times, waits and sweeps.

## What was found

- The depth of a tracked channel can be read as the largest word: a message can be received and subtracted
  before its sender has counted it (`Bus.DepthCanWrap`; `Bus.DepthReads` says exactly when). After the receiver
  is dropped the depth stays at the number of messages that were thrown away with it (`Bus.DepthAtRest`).
- The conflict check for packages is sound but asks for more than is needed: it merges all overlapping enabled
  packages into one set, so two of them that never share a channel can make it refuse a third one that disagrees
  with neither (`CapExample.AdmissionRefusesTheBlameless` is a run that ends so; `CapLifecycle.AdmissibleExactly`
  is the exact test).
- Enabling an enabled package, or disabling a disabled one, succeeds without writing a record, so a rollback
  after it undoes the operation before it (`CapExample.DisabledTwiceIsUninstalled` is a run;
  `CapRuns.ChangeUndoRedo` says exactly when a rollback restores what was there).
- A rollback that is refused has already removed the bundle and replaced the record
  (`CapOperations.StateFs.RollbackPackage`). One to a package whose manifest names a path twice is always
  refused, although the install was not (`CapRuns.ReloadedIsValid` is the exact condition,
  `CapExample.TwiceIsNotReloadable` such a payload, `CapExample.RollbackIsRefused` the run).
- An install above the package limit leaves the bundle in the store without an entry
  (`CapOperations.StateFs.Install`; `CapExample.OnePackageTooMany` is a run).
- A package id with white space around it can be installed, but no other operation can name it afterwards,
  because those trim their argument and the install keeps it as it is (`CapRuns.NamedExactly`;
  `CapExample.SpacedIdIsUnnamable` and `CapExample.SpacedIdStays` for one id).
- With `max_message_bytes` below 2 no close code is ever sent (`WssClient.Client.SendCloseCode`;
  `WssRuns.NoCodeBelowTwo` is a run).
- The receiver of a chat stream can return no frame and later return one: between the two steps of another
  thread's final, the stream has left the map but its queue is still open and empty. `ChatReceiver.NothingThenAFrame`
  is such a run, `ChatReceiver.NothingThenAFrameExactly` says when a frame can still follow, and
  `ChatReceiver.ClosedAndEmptyIsTheEnd` when none can. The queue need not be open: if the pair is pushed just as
  the second wait runs out, it is closed and holds the pair (`ChatReceiver.NothingFromAClosedQueue`).
- A final frame above the frame limit is dropped with the queue left open
  (`ChatQueue.ChatStreamQueue.PushTerminalPair`); after `ChatReceiver.LongFinalStrands` nothing is ever received.
- A deadline change that is notified after the timer has planned its wake and before its wait begins is not
  seen by that wait: it ends early exactly when the generation has changed since its own first read
  (`BgTimer.EndsEarlyExactly`, `BgTimer.Timer.Iterate`), and `BgTimer.EarlierChangeIsMissed` is a wait that lasts
  its whole time. The delay is at most the guard interval.

## Model

| member | source | states |
|---|---|---|
| WssFrames.ServerReadsWhatWasSent | components/beetle_wss/beetle_wss.c:875-944 | A server that parses the octets of any list of sent frames (sections 5.2 and 5.3 of RFC 6455) reads exactly those frames back: FIN, opcode, unmasked payload, in order, with nothing left over |
| WssFrames.FramingIsUnambiguous | components/beetle_wss/beetle_wss.c:875-944 | Two lists of frames with the same octets on the wire are the same list of (FIN, opcode, payload) |
| WssFrames.LengthFormIsMinimal | components/beetle_wss/beetle_wss.c:893-915 | Any header that announces the same length is at least as long as the one the writer uses |
| WssFrames.MaskInPieces | components/beetle_wss/beetle_wss.c:922-937 | Masking a payload piece by piece, carrying the offset, is masking it whole with key octet i mod 4 |
| WssFrames.ParseClientFrame | components/beetle_wss/beetle_wss.c:875-944 | A client frame followed by anything parses to that frame and its size |
| WssFrames.ParseServerFrame | components/beetle_wss/beetle_wss.c:1109-1164 | The same for the unmasked frames a server sends, in all three length forms |
| WssFrames.LengthFieldParses | components/beetle_wss/beetle_wss.c:1126-1144 | Each of the three length encodings is read back as the length |
| WssBytes.XorTwice | components/beetle_wss/beetle_wss.c:929-931 | Unmasking undoes masking |
| WssBytes.XorBits | components/beetle_wss/beetle_wss.c:929-931 | Every bit of a masked octet is set exactly when the bits of the two octets differ |
| WssBytes.XorIsXor | components/beetle_wss/beetle_wss.c:929-931 | It is the exclusive or of the machine on all pairs of octets |
| WssFrames.MaskBits | components/beetle_wss/beetle_wss.c:922-937 | The same for a whole payload: bit k of octet i differs from that of the payload exactly when bit k of key octet i mod 4 is set |
| WssExamples.FramesOfSection57 | components/beetle_wss/beetle_wss.c:875-944 | The frames of section 5.7 of RFC 6455: the text Hello and a pong masked with 37 FA 21 3D, and the unmasked, fragmented and ping frames of a server, octet by octet |
| WssExamples.LengthsOfSection57 | components/beetle_wss/beetle_wss.c:893-915 | The headers of 256 octets and of 64 KiB of section 5.7 of RFC 6455 |
| WssBytes.FlagBits | components/beetle_wss/beetle_wss.c:1114-1121 | The flag bits of a header octet are what the arithmetic of the parser says |
| WssBytes.FieldBits | components/beetle_wss/beetle_wss.c:1117-1119 | So are the opcode and the short length |
| WssBytes.ValueOfBigEndian | components/beetle_wss/beetle_wss.c:893-915 | Lengths written most significant octet first are read back by shifting in octet by octet |
| WssDecoder.NextFrameIsTheParsedFrame | components/beetle_wss/beetle_wss.c:1109-1164 | A frame is accepted if and only if it parses, has no reserved bit and no mask, and its length passes the limit and control-frame checks |
| WssDecoder.FirstOctetsRefused | components/beetle_wss/beetle_wss.c:1114-1121 | In the bits of the first two octets: a frame is refused with 1002 at once exactly if a reserved bit or the mask bit is set |
| WssDecoder.HeaderFaultsAre | components/beetle_wss/beetle_wss.c:1126-1164 | A header is refused with 1009 exactly above max_message_bytes, with 1002 exactly for a control frame in fragments or above 125 octets |
| WssDecoder.FramesRefused | components/beetle_wss/beetle_wss.c:1166-1250 | A frame is refused with 1002 exactly for a continuation of nothing, a message inside a message or an opcode the RFC does not define, with 1009 exactly when the message outgrows the limit |
| WssDecoder.FramesAccepted | components/beetle_wss/beetle_wss.c:1166-1250 | What each accepted frame delivers and leaves: fragments are appended, the last one delivers the whole, pings and pongs leave the message under way |
| WssDecoder.CloseInfoIs | components/beetle_wss/beetle_wss.c:254-283 | A close payload of a code, most significant octet first, and a reason is read as that code and reason |
| WssDecoder.CloseInfoInOctets | components/beetle_wss/beetle_wss.c:254-283 | Of any payload of two octets or more the code is 256 times the first plus the second, and the reason the rest |
| WssDecoder.NoCloseInfo | components/beetle_wss/beetle_wss.c:254-283 | A close payload of none or one octet has neither |
| WssDecoder.CloseIsReported | components/beetle_wss/beetle_wss.c:1220-1232 | In any state that is not closed, a close frame with a code and a reason that fits is reported as that close and ends the stream, on frames and on octets |
| WssDecoder.NextFrameOfPrefix | components/beetle_wss/beetle_wss.c:1109-1164 | What is decided about a frame does not change when more octets arrive |
| WssDecoder.DecodeOfPrefix | components/beetle_wss/beetle_wss.c:1099-1250 | Decoding a stream as far as it has arrived gives a beginning of what decoding all of it gives |
| WssDecoder.DecodeServerStream | components/beetle_wss/beetle_wss.c:1099-1250 | On the octets of a list of server frames the octet decoder does what the frame-by-frame interpretation of sections 5.4 and 5.5 of RFC 6455 does |
| WssDecoder.FragmentedMessageIsDelivered | components/beetle_wss/beetle_wss.c:1166-1218 | A message cut into any number of fragments, with any pings and pongs between them, is delivered as the concatenation of its fragments, and every ping is reported in its place |
| WssDecoder.ControlsDoNotDisturb | components/beetle_wss/beetle_wss.c:1234-1244 | Pings and pongs in front of the rest of a stream change nothing in its reassembly |
| WssDecoder.OversizedMessageIsRefused | components/beetle_wss/beetle_wss.c:1172-1178 | A message in fragments that outgrows max_message_bytes, from its first fragment or from within, ends in a violation at the fragment that does so, and none of it is delivered; the close code is 1009 if max_message_bytes is at most SIZE_MAX - 10 |
| WssClient.Client.Recv | components/beetle_wss/beetle_wss.c:1082-1251 | One receive refines the decoder: it takes in pings, answers each with a pong of the same payload, and then delivers the decoder's next message, close or violation; a close leaves exactly the code and reason that the decoder reports. On a timeout, disconnect or error every event still to come is as before, and a receive ends for lack of octets only if no whole frame is buffered. A close frame is written only as an echo or with the code of a violation. If the connection did not fail meanwhile, every ping was answered, a close was echoed unless one had been sent, a violation was answered with its code, and the receive did end with one of the decoder's events, or for lack of memory with a limit above half the address space |
| WssClient.Client.ReceiveTurn | components/beetle_wss/beetle_wss.c:1099-1250 | One pass of the loop handles one frame as the decoder does or says why there is none |
| WssClient.Client.ReceiveFrame | components/beetle_wss/beetle_wss.c:1109-1164 | However the octets arrive, the frame found in the buffer is the frame at the front of the stream, and stopping early loses nothing |
| WssClient.Client.ReceiveHeader | components/beetle_wss/beetle_wss.c:1109-1144 | The header as parsed from the buffer, reading no further than its form needs |
| WssClient.Client.EnsureRxBytes | components/beetle_wss/beetle_wss.c:541-555 | OK exactly when enough is buffered; buffered and coming octets together never change |
| WssClient.Client.FillRx | components/beetle_wss/beetle_wss.c:495-539 | One read of at most 1024 octets; nothing lost, repeated or reordered, and a failed read changes nothing. It fails only by a fault of the connection or at the capacity guard |
| WssClient.Client.EnsureRxCapacity | components/beetle_wss/beetle_wss.c:435-464 | The doubling loop ends; capacity suffices or the request was above half of SIZE_MAX; the content stays |
| WssClient.Client.ConsumeRx | components/beetle_wss/beetle_wss.c:466-476 | Exactly the first len octets go, or everything if there are not more |
| WssClient.RxCapacityBound | components/beetle_wss/beetle_wss.c:435-464 | No reachable capacity exceeds 2^31, and doubling stays within the same family |
| WssClient.Client.AppendFragment | components/beetle_wss/beetle_wss.c:824-862 | The fragment buffer grows by exactly the payload, or PROTOCOL if and only if it would pass max_message_bytes, and then nothing changes; length never passes capacity or the limit |
| WssClient.Client.OnContinuation | components/beetle_wss/beetle_wss.c:1167-1189 | Continuation frames are handled as the decoder says, including 1002 without a message and 1009 above the limit |
| WssClient.Client.AppendFront | components/beetle_wss/beetle_wss.c:1172-1178 | A buffered payload joins the message being reassembled, refused if and only if the limit would be passed |
| WssClient.Client.OnData | components/beetle_wss/beetle_wss.c:1191-1218 | So are text and binary frames, including 1002 inside a fragmented message |
| WssClient.Client.OnClose | components/beetle_wss/beetle_wss.c:1220-1232 | A close stores its code and reason, is echoed once unless a close was sent before or the connection failed, clears the reassembly and is consumed |
| WssClient.Client.OnPing | components/beetle_wss/beetle_wss.c:1234-1240 | A pong with the ping's payload goes out and the ping is consumed either way |
| WssClient.Client.StoreClosePayload | components/beetle_wss/beetle_wss.c:254-283 | The status code is 256 times the first octet plus the second, the reason what follows; a payload of fewer than two octets leaves both unset |
| WssClient.Client.AwaitHeaders | components/beetle_wss/beetle_wss.c:655-675 | Octets after the blank line that ends the response headers stay buffered for the first receive; PROTOCOL exactly when more than 8192 octets are buffered |
| WssClient.Client.FindHeaderEnd | components/beetle_wss/beetle_wss.c:478-489 | The first CR LF CR LF, or none |
| WssClient.HeaderEndExactly | components/beetle_wss/beetle_wss.c:478-489 | The place found is right behind 13 10 13 10, and no earlier place is; none is found exactly if there is no such place |
| WssClient.Client.SendFrame | components/beetle_wss/beetle_wss.c:875-944 | A successful send puts exactly one frame on the wire; a failed one a proper prefix; PROTOCOL if and only if the payload passes the limit, and then nothing is written; otherwise it fails only by a fault of the connection. Keeps the trace rules of section 5.5 of RFC 6455 |
| WssClient.Client.FrameHeader | components/beetle_wss/beetle_wss.c:886-920 | First octet, length field with mask bit and key, in the form the length calls for |
| WssClient.Client.WriteMasked | components/beetle_wss/beetle_wss.c:922-941 | The 512-octet chunks written are the payload masked whole, or a prefix of it |
| WssClient.Client.MaskChunk | components/beetle_wss/beetle_wss.c:922-937 | Bit by bit, an octet of the chunk is set where its payload octet and the key octet of its place in the payload differ |
| WssClient.Client.WriteAll | components/beetle_wss/beetle_wss.c:557-597 | All of the data, or a proper prefix and a reason |
| WssClient.Client.SendCloseCode | components/beetle_wss/beetle_wss.c:946-955 | The code goes out as two octets in a close frame; with max_message_bytes below 2 nothing goes out |
| WssClient.Client.SendData | components/beetle_wss/beetle_wss.c:1052-1080 | After a close was sent or received: CLOSED, and nothing is written. Otherwise it succeeds within the limit unless the connection fails |
| WssClient.Client.Close | components/beetle_wss/beetle_wss.c:1292-1297 | At most one empty close frame, and none after a close was sent or received |
| WssClient.TraceMeaning | components/beetle_wss/beetle_wss.c:875-955 | In every trace of sent frames control frames carry at most 125 octets and no text or binary frame follows a close |
| WssClient.ReceivesMore | components/beetle_wss/beetle_wss.c:1099-1250 | Pings taken in by earlier passes and the outcome of a later one make up one receive |
| WssClient.PingedDone | components/beetle_wss/beetle_wss.c:1099-1250 | The passes of a receive add up to the receive: events, pongs and reply together |
| WssRuns.RunRefinesDecoder | components/beetle_wss/beetle_wss.c:1082-1251 | For every stream, every way of cutting it into reads and every placement of timeouts: the non-timeout results of repeated receives, with the code and reason of a close and the close code of a violation, are those of the decoder on the whole stream, as far as the run has got |
| WssRuns.RunOnServerFrames | components/beetle_wss/beetle_wss.c:1082-1251 | If the server sends a list of frames, a run shows a beginning of their interpretation, and all of it once the end is reached |
| WssRuns.EndIsSticky | components/beetle_wss/beetle_wss.c:1094-1096 | After a close every receive reports the same close and changes nothing; after a violation it reports the same violation or nothing |
| WssRuns.EndStays | components/beetle_wss/beetle_wss.c:1094-1096 | The step of that: a later call leaves the end in place |
| WssRuns.EndedMeaning | components/beetle_wss/beetle_wss.c:1082-1251 | A run has ended exactly when some call of it returned a close or a protocol error |
| WssRuns.UseClient | components/beetle_wss/beetle_wss.c:1052-1251 | Any use of a client, with any list of text and binary sends and closes before each receive, is such a run |
| WssRuns.Act | components/beetle_wss/beetle_wss.c:1052-1080 | Any number of sends and closes leave everything on the receiving side as it is |
| WssRuns.UseOnce | components/beetle_wss/beetle_wss.c:1052-1251 | Sends and closes in between do not disturb what is received; without a fault of the connection the receive ends with a message, a close, a violation or NOMEM |
| WssRuns.Handshake | components/beetle_wss/beetle_wss.c:655-741 | Once the response headers are accepted, what is to be received begins right after the blank line that ends them; before that nothing is lost |
| WssRuns.ConnectAndUse | components/beetle_wss/beetle_wss.c:655-1251 | From a fresh client on: if the server sends its headers and then a list of frames, any use shows a beginning of their interpretation, and all of it once the end is reached |
| WssRuns.NoCodeBelowTwo | components/beetle_wss/beetle_wss.c:946-955 | A run: with a limit of one octet a frame with a reserved bit is a violation, and no close frame goes out |
| WssRuns.MessagesAreBounded | components/beetle_wss/beetle_wss.c:1146-1178 | No decoded message is longer than max_message_bytes |
| WssRuns.DeliveredIsBounded | components/beetle_wss/beetle_wss.c:1180-1207 | No delivered message is longer than max_message_bytes |
| WssSha1.DigestOfPieces | components/beetle_wss/beetle_wss.c:119-178 | For every way of splitting a message over updates the result is the one-shot SHA-1 of the whole (sections 5.1.1 and 6.1 of FIPS 180-4) |
| WssSha1Example.DigestOfAbc | components/beetle_wss/beetle_wss.c:62-178 | The digest of the three letters abc is the one FIPS 180 gives, octet by octet |
| WssSha1Example.Compressed | components/beetle_wss/beetle_wss.c:62-117 | Taking the schedule through a window of sixteen words, sixteen rounds at a time, compresses a block as the standard says |
| WssSha1.Transform | components/beetle_wss/beetle_wss.c:62-117 | One block through the code's rounds is the compression function of section 6.1.2 of FIPS 180-4 |
| WssSha1.Sha1.Update | components/beetle_wss/beetle_wss.c:128-154 | The message so far grows by the data, buffered or compressed |
| WssSha1.Sha1.Final | components/beetle_wss/beetle_wss.c:156-178 | Padding and length close the last block exactly, and the result is the digest of everything given |
| WssSha1.Sha1.PadZeros | components/beetle_wss/beetle_wss.c:156-170 | The zero padding stops exactly 8 octets before a block ends |
| WssSha1.ExpandWords | components/beetle_wss/beetle_wss.c:62-80 | The 80 words of the schedule of section 6.1.2 |
| WssSha1.CodeFIsF | components/beetle_wss/beetle_wss.c:88-104 | The code's logical functions are Ch, Parity and Maj |
| WssSha1.RotationsByShifts | components/beetle_wss/beetle_wss.c:62-117 | The code's shift pairs are rotations |
| WssSha1.LengthWraps | components/beetle_wss/beetle_wss.c:128-178 | The bit length counted as octets arrive is the message length times 8, modulo 2^64 |
| WssBase64.EncodeInto | components/beetle_wss/beetle_wss.c:180-210 | True exactly when the text and its terminator fit; then the buffer holds the encoding and a terminator, otherwise it is untouched |
| WssBase64.DecodeOfEncode | components/beetle_wss/beetle_wss.c:180-210 | Decoding as in section 4 of RFC 4648 gives the input back, for every length |
| WssBase64.DecodeEncodedGroup | components/beetle_wss/beetle_wss.c:180-210 | The same for one group of one, two or three octets and its padding |
| WssExamples.ShortVectors | components/beetle_wss/beetle_wss.c:180-210 | The vectors of section 10 of RFC 4648 up to foo |
| WssExamples.LongVectors | components/beetle_wss/beetle_wss.c:180-210 | Those from foob to foobar |
| WssExamples.Alphabet | components/beetle_wss/beetle_wss.c:180-210 | The 64 letters are those of table 1 of RFC 4648, in its order |
| WssExamples.GuidOctets | components/beetle_wss/beetle_wss.c:20-20 | The GUID of the handshake, octet by octet |
| WssBase64.ComputeAccept | components/beetle_wss/beetle_wss.c:637-653 | The handshake answer is the encoding of the digest of key and GUID, 28 characters |
| CapPolicy.MergeDocuments | src/capability_package.rs:1176-1221 | Merging a package's documents succeeds if and only if all overlays merged so far are consistent, and the result represents exactly those overlays; the package joins the sources of exactly the tools it has an overlay for, at the end and once |
| CapPolicy.MergeDocument | src/capability_package.rs:1182-1219 | The same for one document |
| CapPolicy.MergeOverlay | src/capability_package.rs:1183-1218 | The same for one overlay; earlier sources stay, its package joins those of its tool, and no other tool changes its sources |
| CapPolicy.RepresentsFields | src/capability_package.rs:1176-1237 | What a merged set holds, field by field: user_llm, system_llm and internal_system_llm of a tool force exactly what some merged overlay forces in that field |
| CapPolicy.ConsistentFields | src/capability_package.rs:1223-1237 | Consistent, field by field: no tool is forced visible by one overlay and hidden by another in the same field |
| CapPolicy.VisibilityByField | src/capability_package.rs:369-393 | Each audience sees its own field: the forced value, or the base if it inherits |
| CapPolicy.MergeIsOrderIndependent | src/capability_package.rs:1176-1237 | Two merges of the same overlays, in whatever order and grouping, show every tool alike |
| CapPolicy.RepresentedIsConsistent | src/capability_package.rs:1223-1237 | What was merged holds no tool both forced visible and forced hidden for one audience |
| CapPolicy.ConsistentUnion | src/capability_package.rs:1223-1237 | A union is consistent exactly when both parts are and no overlay of one opposes one of the other |
| CapPolicy.ConsistentSubset | src/capability_package.rs:1176-1237 | Success carries over to every part of what was merged |
| CapPolicy.JoinRepresents | src/capability_package.rs:1183-1218 | Joining one overlay tool by tool and audience by audience represents the larger set |
| CapPolicy.VisibilityIsForced | src/capability_package.rs:369-390 | A tool is shown as forced if and only if some merged overlay forces it, otherwise as its base says |
| CapModel.Find | src/capability_package.rs:426-430 | An entry with the id, or none has it |
| CapModel.SharedChannelMeansOverlap | src/capability_package.rs:1592-1609 | Two packages that support one channel overlap |
| CapRules.OverlapExactly | src/capability_package.rs:1600-1609 | Two packages are compared if and only if some channel would run both |
| CapRules.IdCharacters | src/capability_package.rs:1816-1819 | The characters of an id, listed |
| CapRules.WhiteSpace | src/capability_package.rs:1809-1809 | What is trimmed, listed by code point |
| CapRules.NormalizeExactly | src/capability_package.rs:1808-1826 | An argument normalizes to an id if and only if it is that id with white space around it, and the id is not empty, not too long and of those characters |
| CapRules.SafePathExactly | src/capability_package.rs:1793-1806 | A path is accepted if and only if it names something below the directory of its section and has no two dots in a row |
| CapRules.ManifestRules | src/capability_package.rs:880-978 | A manifest is valid if and only if it keeps each of its rules, in numbers: ids up to 48 and versions up to 32 characters, at most 16 channels and entries a section, ids of a section and paths of assets distinct, channels known |
| CapRules.PayloadRules | src/capability_package.rs:854-1092 | A payload is valid if and only if besides its files are text of 1 to 32,768 octets or assets of 1 to 65,536, with distinct paths, every named file is there, and every policy file is a valid document with the id of its entry |
| CapRules.LoadExactly | src/capability_package.rs:1289-1379 | A bundle is absent exactly without a manifest and broken exactly when a file it names is missing; otherwise its files are those the manifest names, section by section, with the content stored |
| CapRules.LessExactly | src/capability_package.rs:1520-1522 | Ids are ordered by their first different character, a beginning before what it begins |
| CapRules.SortedExactly | src/capability_package.rs:1520-1522 | A sorted registry is sorted between any two places |
| CapModel.AssetsApart | src/capability_package.rs:1289-1379 | A bundle loads exactly when it loads without its assets and they are all there; the two loads agree on everything else |
| CapRegistry.UpsertLemma | src/capability_package.rs:1507-1523 | An upsert sets the entry of one id, leaves all others and keeps the registry sorted and free of repetitions |
| CapRegistry.ReplaceLemma | src/capability_package.rs:527-532 | Replacing an entry in place does the same |
| CapRegistry.RemoveLemma | src/capability_package.rs:608-611 | Removing an id takes its entry and no other |
| CapRegistry.FindSorted | src/capability_package.rs:1507-1523 | In the registry an entry is what a search for its id finds |
| CapRegistry.SortAppended | src/capability_package.rs:1507-1523 | Pushing and sorting is inserting at the right place |
| CapStore.LoadWritten | src/capability_package.rs:1303-1414 | A valid payload that was written is loaded back as the files its manifest names, in that order, with the contents given |
| CapStore.NormalOfLoaded | src/capability_package.rs:1303-1414 | Writing back a loaded bundle that is valid changes nothing |
| CapStore.WrittenAllAt | src/capability_package.rs:1381-1414 | Every file of a valid payload is at its path afterwards; sections do not overwrite each other |
| CapStore.WrittenAllElsewhere | src/capability_package.rs:1381-1414 | Files of other packages are untouched |
| CapStore.ParsedOverlays | src/capability_package.rs:1745-1755 | Parsing the policies of a loadable package gives exactly the overlays its files hold |
| CapStore.StaysGood | src/capability_package.rs:417-657 | The invariant of the store survives any change to one package that passed the checks against the enabled ones |
| CapStore.SameLoad | src/capability_package.rs:1303-1379 | A package whose files did not change loads as before |
| CapLifecycle.AdmissibleExactly | src/capability_package.rs:1120-1174 | The conflict check accepts exactly when no workflow id clashes, the candidate agrees with itself and each overlapping enabled package, and those agree among themselves |
| CapLifecycle.WorkflowTestExactly | src/capability_package.rs:1132-1165 | The workflow test fails if and only if an enabled package that shares a channel with the candidate has a workflow entry whose id is the id of one of its entries |
| CapRules.ClashIsRefused | src/capability_package.rs:1132-1165 | A payload with such an entry is not enabled |
| CapLifecycle.AdmissibleMeansCompatible | src/capability_package.rs:1120-1174 | A package that passes is compatible with every enabled package it overlaps |
| CapLifecycle.AdmissibleElsewhere | src/capability_package.rs:604-635 | The excluded package has no say: the check gives the same answer before and after it is taken away |
| CapLifecycle.AdmittedIsOk | src/capability_package.rs:1120-1174 | What was checked suffices for the invariant, although only the files the manifest names are kept |
| CapLifecycle.RollbackUndoes | src/capability_package.rs:588-657 | A rollback after any recorded change restores the earlier bundle and entry, up to the rollback fields, and touches no other package |
| CapLifecycle.SecondRollbackRedoes | src/capability_package.rs:588-657 | A second rollback restores what the first one replaced |
| CapLifecycle.WithBundleLemma | src/capability_package.rs:1381-1414 | Writing a bundle makes it load in normal form and leaves other packages as they are |
| CapLifecycle.DiscardedLemma | src/capability_package.rs:443-454 | After the record is written and the bundle cleared, the record holds the previous state and the store is still in order |
| CapLifecycle.BundleStaysGood | src/capability_package.rs:443-468 | Writing a checked payload over the cleared package keeps the store in order, whether or not the registry takes the entry |
| CapLifecycle.SwitchStaysGood | src/capability_package.rs:507-549 | So does changing the flag of an installed package that passes the checks |
| CapLifecycle.RestoredStaysGood | src/capability_package.rs:604-657 | So does putting back a recorded bundle; the bundle then loads as it was recorded |
| CapLifecycle.RestorableElsewhere | src/capability_package.rs:612-635 | It makes no difference to the checks that rollback clears the package first |
| CapLifecycle.RestoredIsRolledBack | src/capability_package.rs:604-657 | Putting a recorded state back is the promised rollback if the registry takes the entry, and keeps the store in order if it does not |
| CapLifecycle.EntriesAfterLemma | src/capability_package.rs:608-643 | The registry afterwards: the recorded entry, stamped, in place of the current one, all others as they were; it fits if and only if there is room |
| CapLifecycle.ReplacedIsInstalled | src/capability_package.rs:443-474 | What is there after an install past its checks: installed if the registry takes the entry, bundle and record without it otherwise, in order either way |
| CapLifecycle.NewEntryLemma | src/capability_package.rs:455-468 | The registry afterwards, and that the entry fits if and only if there is room |
| CapExample.AdmissionRefusesTheBlameless | src/capability_package.rs:1120-1174 | A run from the empty store: two packages on different channels that disagree about a tool are installed, and a third for every channel, with no overlays and no workflows and so compatible with both, is refused for admissibility alone |
| CapExample.TwiceIsNotReloadable | src/capability_package.rs:854-878 | A payload with two skills in one file is valid, and as reloaded it is not |
| CapExample.RollbackIsRefused | src/capability_package.rs:588-657 | A run: it is installed, replaced, and a rollback to it is refused; the entry stays and no bundle is left |
| CapExample.DisabledTwiceIsUninstalled | src/capability_package.rs:491-502 | A run: a package is installed, disabled although it already is, and rolled back, and is gone |
| CapExample.SpacedIdIsUnnamable | src/capability_package.rs:1808-1826 | An id with a space in front is accepted, and no argument names it |
| CapExample.SpacedIdStays | src/capability_package.rs:552-586 | A run: its package is installed, and uninstalling it by its own id finds nothing |
| CapExample.OnePackageTooMany | src/capability_package.rs:443-468 | A run: after 24 packages the next install fails, and its bundle is in the store without an entry |
| CapOperations.StateFs.ValidateConflicts | src/capability_package.rs:1120-1174 | Accepts if and only if the candidate is admissible beside the enabled packages; a workflow entry with the id of a workflow entry of one of them is always refused, and nothing else is refused as a workflow conflict |
| CapOperations.StateFs.Install | src/capability_package.rs:417-475 | Succeeds if and only if the payload is valid, may be enabled if it is to be, and there is room; then bundle, entry and record are as promised. Refused before that, nothing changes; above 24 packages bundle and record are written and the registry is not. Other packages never change and the store stays in order |
| CapRules.InstalledEntry | src/capability_package.rs:1525-1549 | The entry after an install, field by field: flag and times, when it was first installed, counts of each section, rollback |
| CapRules.SwitchedEntry | src/capability_package.rs:534-539 | The entry after an enable or disable: flag, update and rollback times change, nothing else |
| CapRules.RolledBackEntry | src/capability_package.rs:634-646 | The entry after a rollback is the recorded one but for what it says of rollback, update time included |
| CapOperations.StateFs.ValidateInstall | src/capability_package.rs:423-442 | Accepts if and only if the payload may be installed |
| CapOperations.StateFs.ReplacePackage | src/capability_package.rs:443-468 | Record, clear, write, upsert: the store and the registry afterwards |
| CapOperations.StateFs.SetEnabled | src/capability_package.rs:477-550 | Exact success condition; a changed flag is recorded and stamped, a flag that is already set changes nothing at all, a refusal changes nothing |
| CapOperations.StateFs.UninstallPackage | src/capability_package.rs:552-586 | Succeeds exactly for installed ids; bundle, files and entry are gone and on record, everything else is as it was |
| CapOperations.StateFs.RollbackPackage | src/capability_package.rs:588-657 | Succeeds if and only if a record exists that passes the checks again and fits; then the recorded bundle and entry are back and what they replaced is on record. A refusal leaves the package cleared and the registry as it was, or, exactly when there is no room for the entry, the bundle without it; other packages never change and the store stays in order |
| CapOperations.StateFs.PutBack | src/capability_package.rs:635-657 | The recorded bundle is written and the recorded entry joins the others, unless that is above 24 packages |
| CapOperations.StateFs.ValidateRecord | src/capability_package.rs:612-635 | The recorded bundle is checked as an install would be |
| CapOperations.StateFs.ValidateEnable | src/capability_package.rs:432-442 | Capabilities first, refused if and only if a required one is not offered, then conflicts; accepts if and only if the payload may be enabled |
| CapOperations.StateFs.ClearPackage | src/capability_package.rs:1416-1454 | All files and the manifest of the package go, if there is a manifest |
| CapOperations.StateFs.WriteBundle | src/capability_package.rs:1381-1414 | Manifest and files of all four sections are written |
| CapOperations.StateFs.WriteRegistry | src/capability_package.rs:1247-1260 | Refused above 24 packages |
| CapOperations.StateFs.PoliciesOf | src/capability_package.rs:1163-1167 | The overlays of a readable package, read without its assets |
| CapRuns.BuildToolPolicySet | src/capability_package.rs:743-758 | Succeeds in every store in order, for every channel and all capabilities, represents exactly the overlays of the active packages, and lists the sources of each tool in the order of the registry |
| CapRuns.SourcesExactly | src/capability_package.rs:1183-1218 | The sources of a tool are exactly the packages with an overlay for it, each once |
| CapRules.ActiveExactly | src/capability_package.rs:1551-1573 | A package is active if and only if it has an enabled entry and a manifest, names the channel, all channels or none, and every required capability is offered |
| CapRuns.LoadActive | src/capability_package.rs:1551-1575 | Exactly the enabled, loadable packages that support the channel and whose requirements are met, in the order of the registry |
| CapRuns.ActiveIsConsistent | src/capability_package.rs:1120-1174 | Checks made pair by pair at admission add up: whatever is active on a channel is consistent together |
| CapRuns.LiveWorkflowsAreDisjoint | src/capability_package.rs:1120-1174 | Two enabled packages that can meet on a channel have no two workflow entries with one id |
| CapRuns.RunThenBuild | src/capability_package.rs:417-758 | After any sequence of operations, failed ones included, the policy set of every channel can be built |
| CapRuns.Perform | src/capability_package.rs:417-657 | Every operation keeps the store in order and changes no other package. A successful one leaves a record of what was there, unless it is an enable or disable that finds its flag set, which changes nothing; one that fails changes nothing but an install above the limit, or a rollback, which leaves the registry as it was and, unless it is above the limit, no bundle |
| CapRuns.ChangeUndoRedo | src/capability_package.rs:588-657 | An operation and two rollbacks, all successful: the first restores what was there before if and only if the operation did not find its flag set, or what was there was already on record; the second restores what was there after the operation |
| CapRuns.RolledBackToRecord | src/capability_package.rs:588-657 | A rollback leaves a package as it was if and only if that is what the record holds |
| CapRuns.ReloadedIsValid | src/capability_package.rs:854-878 | An installed bundle passes validation again, as a rollback to it requires, if and only if no section of its manifest names one path twice |
| CapRuns.PickIsValid | src/capability_package.rs:993-1034 | The same for one section |
| CapRuns.NamedExactly | src/capability_package.rs:1808-1826 | An id can be named to enable, disable, uninstall or roll back if and only if it has no white space around it, while an install takes it either way |
| CapPaths.PathsAreApart | src/capability_package.rs:1611-1675 | Different values never share a path |
| CapPaths.PathsSpelledOut | src/capability_package.rs:1611-1680 | The path of the registry, of a manifest, of a file and of a rollback record, letter by letter around the id |
| CapPaths.DirectoryHoldsThePackage | src/capability_package.rs:1494-1505 | A path is below a package's directory if and only if it is that package's manifest or one of its files |
| CapPaths.DotIsAnId | src/capability_package.rs:1808-1826 | The dot is accepted as an id |
| CapPaths.NoSlash | src/capability_package.rs:1808-1826 | A valid id holds no slash, not even in the white space around it |
| CapPaths.FirstSlash | src/capability_package.rs:1673-1675 | Id and rest of a path are determined by its first slash |
| ChatFrames.PushEscaped | src/util.rs:147-169 | The loop writes the JSON string literal of its argument |
| ChatFrames.EncodeDelta | src/chat_stream.rs:510-520 | The pieces make up the event frame that the general encoder would give for the same data |
| ChatFrames.FrameLenIsExact | src/chat_stream.rs:522-532 | The predicted length is the number of octets of the frame in UTF-8 |
| ChatFrames.EscapeCharLen | src/chat_stream.rs:534-540 | The length table is the number of octets of the escaped character in UTF-8, character by character |
| ChatFrames.EscapesSpelledOut | src/util.rs:147-169 | Which characters are escaped and how, each by its code |
| ChatFrames.FrameSpelledOut | src/chat_stream.rs:515-532 | The text of an event frame and of a delta frame, letter by letter around its parts |
| Utf8.OctetsOf | src/chat_stream.rs:534-540 | The length of a string is the number of octets of its encoding by section 3 of RFC 3629 |
| Utf8.DecodeEncodedChar | src/chat_stream.rs:534-540 | Decoding an encoded character gives it back, with what follows it |
| Utf8.DecodeOfEncode | src/chat_stream.rs:534-540 | Decoding the encoding of a string gives the string |
| ChatFrames.DataIsOneLine | src/chat_stream.rs:510-520 | The data of a delta frame holds no line break |
| ChatFrames.DeltaIsReadBack | src/chat_stream.rs:510-520 | Reading the JSON of a delta frame (section 7 of RFC 8259) gives delta and message id |
| ChatFrames.ReadEscaped | src/util.rs:147-169 | Unescaping a string literal gives the string and what follows it |
| ChatFrames.FrameIsOneEvent | src/chat_stream.rs:502-508 | An event stream reader takes a frame as one event and reads on after it |
| ChatFrames.DeltasAreRecovered | src/chat_stream.rs:510-520 | A reader of any concatenation of delta frames, splitting events and unescaping their JSON, gets the list of deltas back |
| ChatFrames.FramesAreEvents | src/chat_stream.rs:510-520 | The concatenation of delta frames is read as one event for each delta, and what follows on its own |
| ChatFrames.StreamText | src/chat_stream.rs:510-520 | Reading all frames as one stream gives the text they carry one by one |
| ChatFrames.TextOfDeltas | src/chat_stream.rs:510-520 | The frames of a list of deltas carry its concatenation |
| ChatChunks.ChunksMakeTheText | src/chat_stream.rs:453-484 | The chunks concatenate to the text |
| ChatChunks.ChunksFit | src/chat_stream.rs:453-484 | The frame of every chunk is within the limit in octets of UTF-8, given that one worst-case character fits |
| ChatChunks.ChunksAreFewest | src/chat_stream.rs:453-484 | No way of cutting the text into pieces that fit uses fewer |
| ChatChunks.ExtentIsLongest | src/chat_stream.rs:463-472 | A chunk is as long as any beginning of the rest that fits |
| ChatChunks.SuffixTakesNoMore | src/chat_stream.rs:453-484 | The end of a text takes no more chunks than all of it |
| ChatQueue.RunIsOrdered | src/chat_stream.rs:71-158 | In every interleaving the consumer gets the accepted frames in order, less at most two, then at most one terminal pair; the queue keeps within its capacity and an open queue holds no terminal frame |
| ChatQueue.ClosedOnlyDrains | src/chat_stream.rs:71-158 | A closed queue never grows: from then on it only hands out what it holds |
| ChatQueue.OpenIsWhole | src/chat_stream.rs:91-117 | While the queue is open nothing has been evicted |
| ChatQueue.TerminalKeepsOrder | src/chat_stream.rs:119-152 | Evicting for the terminal pair keeps the order of what remains |
| ChatQueue.ChatStreamQueue.PushNonterminal | src/chat_stream.rs:91-117 | Accepted if and only if its octets fit a frame, the queue is open and not full; appended then, no change otherwise |
| ChatQueue.ChatStreamQueue.MakeRoom | src/chat_stream.rs:134-140 | The loop that removes the first frame that is not terminal takes exactly the oldest frames away, as many as there are too many for two more |
| ChatQueue.ChatStreamQueue.PushTerminalPair | src/chat_stream.rs:119-152 | The eviction loop removes exactly the oldest frames: two when the queue was full, one when it was one short of full, none otherwise; then the pair closes the queue. An oversized pair, in octets, changes nothing and leaves it open |
| ChatQueue.AcceptedInNumbers | src/chat_stream.rs:91-117 | On the host up to 16,384 octets with fewer than 64 frames unread, on the ESP up to 6,144 with fewer than 16 |
| ChatQueue.TerminalInNumbers | src/chat_stream.rs:119-152 | How many frames a terminal pair pushes out, by the number unread |
| ChatQueue.ChatStreamQueue.TryRecv | src/chat_stream.rs:71-79 | The oldest frame; Closed only when empty and closed |
| ChatQueue.ChatStreamQueue.MarkSentContentBytes | src/chat_stream.rs:167-170 | The mark becomes the larger of the two numbers, so it never goes back |
| ChatBroker.ChatStreamBroker.TryOpen | src/chat_stream.rs:266-297 | Admits if and only if fewer than max_active streams are open, so there are never more; the sequence number goes up by one modulo 2^32 either way and names the stream |
| ChatBroker.StreamIdsDiffer | src/chat_stream.rs:266-274 | Streams opened at different times, or with different sequence numbers in one millisecond, have different ids |
| ChatBroker.DecimalIsRead | src/chat_stream.rs:266-274 | The decimals in an id are read back as the numbers |
| ChatBroker.ChatStreamBroker.SendDeltaChunks | src/chat_stream.rs:453-484 | Under interference at every lock: on success exactly the frames of the greedy chunks were sent, in order; on failure a beginning of them, the queue turned the next one away, and the stream is ended with a backpressure error unless another thread had taken it |
| ChatBroker.ChatStreamBroker.SendPiece | src/chat_stream.rs:472-482 | The next chunk is sent, or turned away, and then the stream is ended |
| ChatBroker.CutHere | src/chat_stream.rs:463-476 | Where one more character does not fit, the characters since the last cut are the next greedy chunk |
| ChatBroker.CutEnd | src/chat_stream.rs:479-483 | What is left at the end is the last greedy chunk |
| ChatBroker.ChatStreamBroker.SendDeltaFrame | src/chat_stream.rs:486-493 | The frame is sent if and only if the queue accepts it when it is offered; if not, the stream is ended with a backpressure error unless another thread had taken it |
| ChatBroker.ChatStreamBroker.EmitDelta | src/chat_stream.rs:322-330 | Whatever accumulated is, the text carried by the delta frames grows by exactly the delta, and the mark is raised to the length of accumulated; the call ends the stream only if a frame was turned away |
| ChatBroker.ChatStreamBroker.EmitFinal | src/chat_stream.rs:332-381 | For every content: what the mark leaves of it goes out, and then, unless another thread took the stream, the final pair, or a frame was turned away and the stream ended with a backpressure error |
| ChatBroker.MissingCompletes | src/chat_stream.rs:354-363 | If the text sent is a beginning of the content and marked as sent, what goes out makes it exactly the content |
| ChatBroker.ChatStreamBroker.EmitQueued | src/chat_stream.rs:306-320 | An announcement leaves the delta frames and the mark of sent content as they are, and is offered to the queue unless another thread took the stream |
| ChatBroker.ChatStreamBroker.EmitError | src/chat_stream.rs:383-399 | The stream leaves the map, and unless another thread took it the error pair is pushed |
| ChatBroker.ChatStreamBroker.EndStream | src/chat_stream.rs:428-451 | The stream leaves the map; the pair, if it can be pushed, goes onto what the queue then holds and closes it |
| ChatBroker.ChatStreamBroker.Unregister | src/chat_stream.rs:401-410 | The stream leaves the map, and unless another thread took it its queue is closed |
| ChatBroker.ChatStreamBroker.RecvWithTimeout | src/chat_stream.rs:187-204 | Exactly the next frame is taken, or none; none only if the queue is empty and closed or another thread had taken the stream out of the map |
| ChatReceiver.NothingThenAFrameExactly | src/chat_stream.rs:187-204 | After a receive that returned nothing, in any reachable state, a later receive can return a frame if and only if one is queued, or the queue is open and a thread that found the stream in the map, or took it out with a pair that fits, has yet to push |
| ChatReceiver.NothingInARun | src/chat_stream.rs:187-204 | The same after any run of the threads from the opening of the stream, and that the stream is then out of the map unless the queue is closed and empty |
| ChatReceiver.FollowsExactly | src/chat_stream.rs:71-158 | The same whenever no receive is under way; while the stream is in the map and open a frame can always follow |
| ChatReceiver.NothingThenAFrame | src/chat_stream.rs:187-204 | A run in which it happens: a final has taken the stream out of the map, the receiver waits twice and gets nothing, the pair is pushed, and the next receive returns it |
| ChatReceiver.NothingFromAClosedQueue | src/chat_stream.rs:187-204 | A run in which nothing is returned although the queue is closed and holds the pair, which was pushed just as the second wait ran out |
| ChatReceiver.ClosedAndEmptyIsTheEnd | src/chat_stream.rs:71-79 | From an empty closed queue every later receive, in every continuation, returns nothing |
| ChatReceiver.NothingMeans | src/chat_stream.rs:187-204 | A receive returns nothing only from an empty closed queue or when the stream is out of the map, also when the broker is gone |
| ChatReceiver.RunKeepsValid | src/chat_stream.rs:187-204 | What is known of every reachable state: order of the queue, at most one thread that ends the stream, and none while the stream is in the map |
| ChatReceiver.UnsuppliedRun | src/chat_stream.rs:71-158 | Where no frame can follow, no run brings one |
| ChatReceiver.LongFinalStrands | src/chat_stream.rs:119-129 | A run: a final frame above the limit is dropped, the stream is out of the map with its queue open, and nothing is ever received from it |
| ChatBroker.ChatStreamBroker.Recv | src/chat_stream.rs:71-89 | Exactly the next frame is taken, or none, whatever others do while the lock is released; Closed only when empty and closed, Timeout never on a queue that was closed |
| ChatBroker.ChatStreamBroker.Answer | src/chat_stream.rs:322-381 | Any run of deltas and a final that extends them: if it ends the stream, the delta frames carry exactly the final content |
| ChatBroker.ChatStreamBroker.AnswerAndReceive | src/chat_stream.rs:322-381 | From the first delta to the last frame received: if the answer ends the stream with at most capacity - 2 frames unread, the frames received carry exactly the content; otherwise the frames lost are the oldest of these |
| ChatBroker.ChatStreamBroker.Drain | src/chat_stream.rs:71-79 | Receiving until the queue is empty hands out everything queued, in order |
| ChatBroker.ConsumerReads | src/chat_stream.rs:119-152 | What the consumer reads of an ended stream is the content without what the evicted frames carried, and these are exactly the oldest len + 2 - capacity unread |
| ChatBroker.NothingIsLost | src/chat_stream.rs:332-381 | With at most capacity - 2 unread frames the consumer reads exactly the final content |
| ChatBroker.ByteSuffixOf | src/chat_stream.rs:354-359 | Cutting the content at the octet count of what was sent gives the rest |
| ChatBroker.ByteSuffixExactly | src/chat_stream.rs:354-359 | In octets: there is a rest at an offset exactly when some beginning of the text has that many octets, and it is what follows that beginning |
| ChatBroker.EveryChunkFits | src/chat_stream.rs:266-274 | With the ids the broker gives out every chunk of every text fits a frame, in octets: 16 KiB on the host, 6 KiB on the ESP |
| ChatBroker.ErrorCloses | src/chat_stream.rs:383-399 | An error the broker makes up itself fits a frame, so pushing it closes the queue |
| ChatBroker.NoticeIsNoDelta | src/chat_stream.rs:502-508 | No other event is taken for a delta |
| Bus.RunKeepsInvariant | src/bus.rs:776-872 | In every interleaving: depth and uncounted sends together equal queue length and unsubtracted receives, modulo the word size; the queue keeps within capacity; messages come out in the order they went in |
| Bus.StepKeepsInvariant | src/bus.rs:776-872 | Every atomic step keeps it, the direct hand-over of a channel without capacity included |
| Bus.DepthReads | src/bus.rs:776-872 | A reader of the counter sees the true number less the uncounted sends, and a number around the top of the word if and only if these outnumber the rest |
| Bus.DepthAtRest | src/bus.rs:776-872 | With nothing under way the depth is the queue length; once the receiver is gone it stays at the number of messages lost with it |
| Bus.DepthCanWrap | src/bus.rs:776-872 | A send that is received before it is counted leaves the counter at the largest word with an empty queue |
| Bus.Channel.TrySend | src/bus.rs:793-800 | On success the message was accepted after everything seen, and it has been counted when the call returns; full and disconnected change nothing |
| Bus.Channel.TryRecv | src/bus.rs:843-850 | What is received is the next accepted message, and it has been subtracted when the call returns; nothing is returned only if the queue was empty |
| Bus.Channel.Put | src/bus.rs:783-800 | The queue's send: enqueued if there is room, handed over if there is no queue, full or disconnected otherwise |
| Bus.Reduced | src/bus.rs:787-849 | Counting before or after reduction to a word comes to the same |
| Features.ExpandFeatureRoots | scripts/expand_cargo_features.py:71-89 | Ends on every graph; fails if and only if a root is absent, naming the first; otherwise lists exactly the reachable features, each once, in depth-first order, each a root or referred to by an earlier one |
| Features.Expansion.Visit | scripts/expand_cargo_features.py:77-85 | Whatever is newly seen is seen with everything it refers to; the order is that of a search with an explicit list of what is still to be visited |
| Features.LocalFeatureRefs | scripts/expand_cargo_features.py:63-68 | The entries that are features, in their order |
| Features.LocalRefsInOrder | scripts/expand_cargo_features.py:63-68 | The references of a list are those of its first part followed by those of the rest |
| Features.LocalRefsOfOne | scripts/expand_cargo_features.py:63-68 | An entry that is a feature is its own reference, any other has none |
| Features.GroundedIsReachable | scripts/expand_cargo_features.py:77-89 | Everything listed is reachable from the roots |
| Features.ReachedIsSeen | scripts/expand_cargo_features.py:77-89 | A set that holds the roots and is closed under references holds everything reachable |
| Features.RootsAreASet | scripts/expand_cargo_features.py:71-89 | More roots reach no less; order and repetition of roots do not matter |
| Features.MoreDone | scripts/expand_cargo_features.py:77-82 | Each new feature leaves fewer to see, cycles or not |
| BgTimer.AdvancePeriodicDeadline | src/bg_timer.rs:68-72 | The loop gives the advanced deadline |
| BgTimer.Advanced | src/bg_timer.rs:68-72 | After now and at most an interval beyond it if it was due, unchanged otherwise |
| BgTimer.AdvancedIsOnGrid | src/bg_timer.rs:68-72 | The deadline stays on its original grid |
| BgTimer.AdvancedIsFirst | src/bg_timer.rs:68-72 | No grid point between now and the new deadline is left out |
| BgTimer.GridServed | src/bg_timer.rs:189-273 | One sample of the clock: at most one tick, the deadline on its grid, ahead of now and at most an interval ahead |
| BgTimer.SpacedTicks | src/bg_timer.rs:189-273 | Between two ticks lies a grid point, so no interval holds two |
| BgTimer.Earliest | src/bg_timer.rs:167-178 | No later than any pending time, and one of them |
| BgTimer.Timer.NextWakeAt | src/bg_timer.rs:74-178 | The wake time is one of the pending deadlines, no later than any, and at most 10 s away; reminders and tasks count while due work may be done, at their retry time or 1000 ms for each second until the first is due |
| BgTimer.PendingIsWanted | src/bg_timer.rs:74-165 | The pending time of reminders or tasks, in the fields of what the outside shows |
| BgTimer.World.WaitUntilOrNotified | src/bg_timer.rs:42-66 | The wait reads the generation first and ends at the first look that finds the deadline passed or another generation; the looks come in turn, and each planned wait is the rest of the time, at most 5 s |
| BgTimer.EndsEarlyExactly | src/bg_timer.rs:42-66 | A wait ends before its deadline if and only if, before the deadline, it finds a generation other than the one it read itself; and it ends at that look |
| BgTimer.UnchangedLasts | src/bg_timer.rs:42-66 | If it never finds another generation it lasts until its deadline, whatever changed before it began |
| BgTimer.EarlierChangeIsMissed | src/bg_timer.rs:42-66 | A wait of 10 s that begins after the generation has changed since its plan, and lasts its full time; compared with the generation of the plan its second look would have ended it |
| BgTimer.Timer.ServiceGuard | src/bg_timer.rs:186-189 | The guard ticks once if due and gets its next time |
| BgTimer.Timer.ServiceHeartbeat | src/bg_timer.rs:191-217 | The same for the heartbeat |
| BgTimer.Timer.ServiceCron | src/bg_timer.rs:219-273 | The same for cron, whose deadline moves on without a tick outside maintenance |
| BgTimer.Timer.SweepReminders | src/bg_timer.rs:275-309 | A sweep is scheduled if and only if due work may be done, the first reminder is due by the clock in seconds, and no retry time lies ahead; the retry time is then 250 ms ahead, kept while something is due, and dropped otherwise; the sample is recorded with its view |
| BgTimer.Timer.SweepTasks | src/bg_timer.rs:311-336 | The same for tasks |
| BgTimer.Timer.Service | src/bg_timer.rs:183-336 | The ticks, and the sweeps of due reminders and tasks with their retry times, in the fields of the view |
| BgTimer.Timer.Iterate | src/bg_timer.rs:132-336 | After an iteration every deadline is on its grid, later than the last sample and at most an interval later; the planned wake was the earliest pending one and at most 10 s away. The wait ends before it exactly on a change since its own first read, and the sample taken is of the view given |
| BgTimer.Timer.PlanAndWait | src/bg_timer.rs:132-180 | The first half of an iteration: the wake planned is the earliest pending one, and the wait is for it |
| BgTimer.Timer.Run | src/bg_timer.rs:132-336 | Over any number of iterations, with any tick durations, no interval of the 30 s, 60 s and 10 s grids holds two of its ticks; each view is sampled once, what it shows as due is swept at its sample or less than 250 ms before, and sweeps are 250 ms apart while something stays due |
| BgTimer.SweepsArePaced | src/bg_timer.rs:275-336 | Two sweeps of the timer's record with something due all the while between them are at least 250 ms apart |
| BgTimer.SweepsAreTimely | src/bg_timer.rs:275-336 | Every sample of the record that finds something due is a sweep, or comes less than 250 ms after one, with something due since |
| BgTimer.LoggedSweeps | src/bg_timer.rs:275-336 | Both for a whole record |

## Left out

- WssClient.Client.AppendFragment: the sum of fragment and payload length is not reduced to 32 bits; it could wrap only with more than 2^32 octets held in the two buffers together.
- WssClient.Client.FillRx: failing allocations, and null arguments, are not modelled; NOMEM comes from the capacity guards alone. The order of timeout, socket option failure and capacity check is kept, their causes are not modelled.
- WssBase64.EncodeInto: the wrap of the input length plus 2 is not modelled, because lengths are unbounded here.
- CapPolicy.MergeIsOrderIndependent: the order of the packages listed as sources of a tool does depend on the order of merging and is not part of what a merge means.
- CapOperations.StateFs.Install: titles, summaries, display names and descriptions are not modelled, so neither are their length checks; JSON is a typed value, and unparsable JSON or Base64 is a value of another kind.
- CapOperations.StateFs.UninstallPackage: that other packages never change, here and in every other operation, holds where a path is its name. A file system reads `.` as the directory itself, and the id `.` is accepted (`CapPaths.DotIsAnId`; `src/util.rs:23-32` refuses only `..`), so there the directory of that package is the one of all packages, and uninstalling it, replacing it or rolling it back removes their files too.
- CapPaths.PathsAreApart: the same: two paths that differ as names can be one file to a file system that reads `.`.
- ChatQueue.ChatStreamQueue.PushTerminalPair: the final and error data are arbitrary lines; the JSON text of the library encoder is not part of this model.
- ChatBroker.ChatStreamBroker.RecvWithTimeout: that the broker may be gone when a wait runs out is modelled in the steps of `ChatReceiver` only.
- ChatBroker.ChatStreamBroker.Recv: a wait that is never woken and never times out is not modelled; the number of wake-ups is finite and arbitrary. The same holds for `BgTimer.World.WaitUntilOrNotified`.
- Bus.Channel.TrySend: the blocking `send` is this operation repeated until there is room, and is not modelled on its own; disconnection for want of senders shows as nothing received.
- BgTimer.Timer.Iterate: what the ticks and sweeps themselves do; deadlines do not overflow.
- TLS, sockets, certificates, random keys, URL parsing and the text of the HTTP handshake.
- The EspCompact layout, whose hashed names can collide.
- The failure of single store operations, and the recursion that removes a directory, which is the removal of all names below it.
- Prompt bundles, operator snapshots and the texts shown to operators.
- Message constructors and body projections of the bus.
- Reading the Cargo manifest and the command line of the feature script.
- Configuration, channel catalogue, display, metrics and start-up wiring: tables and plumbing decided branch by branch.
