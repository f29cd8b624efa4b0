# Verified models of the recording and signalling code

The repository records video into Matroska files and runs a call centre over sockets and pipes.
This project models the parts of it where state, bytes and order matter, and proves what they are for.

**The Matroska recorder.** NAL units come in one at a time; the muxer turns them into length-prefixed
frames, the writer packs frames into blocks, blocks into groups, groups into clusters, and clusters and a
header into a file that is never read back by the writer. The reader in `MatroskaFormat` is written from the
format (variable-length integers of section 4, unknown sizes of section 6.2 and integers of sections 7.1 and
7.2 of RFC 8794; the Block layout of section 10.1 of RFC 9559; the decoder configuration record of section
5.2.4.1 of ISO/IEC 14496-15), not from the writer, and knows elements by the numbers of RFC 9559; it takes blocks
of the declared track only.
The main results are `AvcMux.UnitsReadBack` and `MatroskaRuns.FramesReadBack`: for every sequence of calls,
the file parses exactly when the header is written before a cluster is closed, and what it contains is then what
the caller wrote, exactly when no cluster is opened by a frame stamped before zero (the writer stores cluster times
as unsigned integers). Which frames open and close clusters is told by `MatroskaPlacing.PlaceAll` from their times,
sizes and key flags alone.
`MatroskaWriter.Writer` is the writer in its own form, with its pool of reusable growing buffers on a linked
free list; every public method is proved to make one step of the machine those results are about.
Raw video is read ahead by one thread; `Prefetch` is that protocol step by step, and `PrefetchSerial.Serialized`
says that over every interleaving it returns what one thread would return that made the same reads in order.

**The line protocol.** Packets are printed onto a growing byte queue, sent in pieces of any size, collected,
cut into lines and parsed. `Wire` is the machine of two endpoints; `Wire.RunSound` says that over every run
what one side has received is a prefix of what the other has sent and that the rest is exactly the bytes on
the way; `WireDelivery.CanDeliver` says when what is on the way can still arrive without anything more being
sent: a queue of 2^20 bytes or more cannot be emptied. `WireEndpoints.Endpoint` is the connection object as one end
of that machine. `PacketLoss.ReadsBackExactly` says which well-formed packets the format cannot carry,
`PacketLines.LineDecodes` what every line of plain fields is read as, and
`CommaFraming.FramesExactly` when a comma-separated command is taken off the queue as one line and no more.
`Pipelines` is the overlapped variant over named pipes; `Pipelines.LosesExactly` says, over every run with refused
writes in it, when bytes are lost.

**The XML reader and printer.** The printer does not escape and the reader collapses white space and decodes
entities, so a tree survives only when its values are in a normal form. `XmlDocuments.DocumentReads` gives what comes
back for every printable tree, and `XmlExact.RoundTrip` the exact condition under which it is equal to the original,
for every tree, both layouts, with or without header, and for every order in which an attribute map may be iterated.
That nothing else comes back is shown with a weight of markup characters which the reader never increases.
`XmlMixed.MixedReads` says how texts around comments and children are joined, and `XmlLexicon` which characters,
entities and numbers the reader knows.
`XmlPrefixes.PrefixesExactly` says which cut-off documents are taken for whole ones, and
`XmlPackets` carries such trees in length-prefixed packets.

**The trunk hunter.** `Hunting` shows that the round robin finds a channel whenever there is one, and each of
them once per round.

## Reading the project

| modules | what they hold |
|---|---|
| Bytes, Ebml, MatroskaFormat | octets, variable-length integers, elements; the file format with its reader |
| MatroskaMuxing, MatroskaPlacing, MatroskaRuns | the writer as a machine on structured data; which frames open clusters; what every run leaves in the file |
| MatroskaContext, MatroskaWriter | the growing buffers and the writer object, proved to refine the machine |
| AvcMux, MkvMuxer | the muxer as a function of NAL units, and the muxer object |
| Prefetch, PrefetchSerial | the reading thread; the same reads by one thread |
| CallBuffer | the byte queue |
| Packets, PacketRoundTrip, PacketLoss, PacketLines, PacketCodec | line packets as text, what survives, what any line is read as, and the imperative codec |
| Handshakes, CommaFraming | cutting packets off a queue, comma-separated commands among them |
| Wire, WireDelivery | two endpoints and the network between them; when all can be delivered |
| HandshakeLink, WireEndpoints | the connection object; the same as one end of the machine |
| Pipelines | the overlapped pipe |
| XmlText, XmlEscapes, XmlTree, XmlRoundTrip, XmlDocuments, XmlPrefixes, XmlEquality | XML as functions of text, the round trip, and documents that are cut off |
| XmlMixed, XmlLexicon | content of any kind; which characters and references are known |
| XmlWeights, XmlExact | what reading costs; only what can be printed comes back |
| XmlReader, XmlParser, XmlPrinter, XmlElements | the reader's cursor and loops, map iteration, and the element objects |
| XmlPackets, XmlChannel | XML packets on the queue |
| Hunting | the trunk hunter |

`dafny verify dfyconfig.toml` checks everything. Proofs are arranged so that each member is cheap: large
definitions are hidden at the top of a proof and used through small lemmas.

## Modelling assumptions

- Allocation, file writes and writes that start do not fail unless a parameter says so; sizes stay below 2^31.
- Text is ASCII without NUL, so code-page conversion is the identity and a byte is a character. Reading past
  the end of a queue sees a NUL.
- The four octets of a float are given by a function of the real number; time stamps are integers below 2^62 in absolute value.
- A frame is at most 0x7fe00000 octets, header texts at most 2^28.
- The order in which an attribute map is iterated is arbitrary and may differ at every node.
- A field that scanf does not set keeps its initial value; those of Achn, which are not initialised, count as 0.
- A write handed to a pipe takes its bytes when it starts.
- What leaves one socket arrives at the other in order and in pieces of any size.

## Model

| member | source | states |
|---|---|---|
| Ebml.IdRoundTrip | X264/matroska.c:110-120 | the reader recovers every element id the writer emits, whatever follows, and uses up exactly its octets |
| Ebml.SizeRoundTrip | X264/matroska.c:122-142 | every 32-bit size reads back as itself and never as the reserved all-ones pattern |
| Ebml.SizeShortest | X264/matroska.c:122-142 | no well-formed size field with the same value is shorter than the one written |
| Ebml.UIntRoundTrip | X264/matroska.c:227-237 | every 64-bit value reads back zero-extended, and no shorter body carries it |
| Ebml.SIntRoundTrip | X264/matroska.c:239-253 | every signed 64-bit value reads back sign-extended, and no shorter body carries it |
| Ebml.SIntLenInt64 | X264/matroska.c:290-302 | a signed body has one to eight octets |
| Ebml.ParseFlatten | X264/matroska.c:173-191 | a reader splits any run of closed elements back into exactly those elements |
| Ebml.HeadRoundTrip | X264/matroska.c:144-156 | id and size in front of an element read back, and the declared size is that of the body |
| MatroskaFormat.BlockRoundTrip | X264/matroska.c:444-455 | a reader that takes only visible, unlaced blocks of track 1 gets relative time and payload back, for every delta that fits |
| MatroskaFormat.GroupRoundTrip | X264/matroska.c:435-457 | a block group reads back as its block with its reference, or as a key frame without one |
| MatroskaFormat.ClusterRoundTrip | X264/matroska.c:424-457 | a cluster reads back as its time and its groups in order; the time comes back unsigned |
| MatroskaFormat.ParseEbmlElems | X264/matroska.c:345-352 | the EBML header declares version 1, IDs of four octets, sizes of eight and document type "matroska" of version 1 |
| MatroskaFormat.ParseInfo | X264/matroska.c:361-368 | time scale, applications and Duration are found in the segment information under their numbers |
| MatroskaFormat.ParseTrack | X264/matroska.c:370-394 | the one track entry is track 1, video, without lacing; codec, private data, default duration and video settings are found under their numbers |
| MatroskaFormat.SegmentRoundTrip | X264/matroska.c:356-396 | the body of an unknown-size segment reads back as information, tracks and clusters |
| MatroskaFormat.FileRoundTrip | X264/matroska.c:329-401 | header and clusters, as bytes, read back as the same movie, with the blocks of the declared track |
| MatroskaMuxing.GroupSize | X264/matroska.c:435-440 | the size announced for a block group before its bytes exist is the number of bytes of its parts |
| MatroskaMuxing.TruncDiv | X264/matroska.c:420-425 | C division: the remainder is smaller than the divisor and has the sign of the dividend |
| MatroskaMuxing.QuotientUnique | X264/matroska.c:420-425 | only one quotient has such a remainder |
| MatroskaMuxing.ReadyShows | X264/matroska.c:420-433 | choosing the cluster shows nothing new and leaves the pending frame within 16 bits of it |
| MatroskaMuxing.FlushShows | X264/matroska.c:412-466 | flushing adds exactly the pending frame, at its stamp divided by the time scale as C divides, with a reference to the frame before it across cluster boundaries |
| MatroskaMuxing.FlushInv | X264/matroska.c:412-466 | every block written is valid: its delta fits 16 signed bits, its reference fits 64 |
| MatroskaMuxing.StepKeeps | X264/matroska.c:412-500 | every public call keeps the invariant and the agreement with a plain recording of the calls |
| MatroskaMuxing.ExecKeeps | X264/matroska.c:412-500 | over every sequence of calls the blocks written are the frames recorded |
| MatroskaPlacing.FlushPlaced | X264/matroska.c:412-466 | a flush opens a cluster, and closes a full one, where the times and sizes of the frames say so |
| MatroskaPlacing.ExecPlaced | X264/matroska.c:412-500 | over every sequence of calls the clusters are those placed from the frames recorded |
| MatroskaRuns.PatchHeader | X264/matroska.c:366-368 | overwriting four octets at the remembered offset replaces the Duration value and nothing else |
| MatroskaRuns.DurationPatched | X264/matroska.c:502-511 | at close the header's Duration gets the value if and only if the header was written to an empty file |
| MatroskaRuns.ExecLatest | X264/matroska.c:485-486 | over every run the stamp kept for the Duration is the latest of those given to frames, from 0 on |
| MatroskaRuns.DurationReadsBack | X264/matroska.c:502-511 | the Duration read is the latest stamp and one frame, divided by the time scale |
| MatroskaRuns.ExecHeaderFirst | X264/matroska.c:329-401 | once the header leads the file it stays there |
| MatroskaRuns.HeaderLeads | X264/matroska.c:329-401 | a run that starts with the header meets the condition and has it first in the file |
| MatroskaRuns.LeadsExactly | X264/matroska.c:329-500 | the header leads the file if and only if it is written before a cluster is closed, told from the calls and the frames they record |
| MatroskaRuns.RunReadsBack | X264/matroska.c:173-516 | for every run that writes the header in time, the file parses to the track, the header, the Duration and the clusters, and they show the frames written |
| MatroskaRuns.TimesExact | X264/matroska.c:424-430 | reading changes no frame time exactly when no cluster time is negative |
| MatroskaRuns.RunPlaced | X264/matroska.c:412-466 | the cluster times of the finished file are computed from the frames alone |
| MatroskaRuns.ParsesExactly | X264/matroska.c:329-516 | for every run the file parses if and only if the header is written before a cluster is closed, told from the calls |
| MatroskaRuns.FramesReadBack | X264/matroska.c:329-516 | with the header written in time, the reader finds track 1, the caller's header, and the caller's frames if and only if no frame that opens a cluster, told from the frames alone, is stamped before zero |
| MatroskaRuns.StampedFromZero | X264/matroska.c:412-500 | frames stamped from zero on all come back; a first frame stamped before zero does not |
| MatroskaRuns.NegativeTimeExample | X264/matroska.c:227-237 | a frame at time -1 is read at 2^64 - 1 |
| MatroskaContext.Grow | X264/matroska.c:88-96 | the doubling loop ends with 16 times a power of two, at least what is needed and at most 2^31 |
| MatroskaContext.Context.Append | X264/matroska.c:86-108 | the contents are the old ones followed by the data; the capacity is 16 doubled |
| MatroskaContext.Context.WriteId | X264/matroska.c:110-120 | appends the id without its leading zero octets |
| MatroskaContext.Context.WriteSize | X264/matroska.c:122-142 | its branches append the size field that the reader decodes |
| MatroskaContext.Context.WriteUInt | X264/matroska.c:227-237 | the loop that drops leading octets appends the shortest element |
| MatroskaContext.Context.WriteSInt | X264/matroska.c:239-253 | the loop that drops redundant sign octets appends the shortest element |
| MatroskaContext.Context.WriteGroup | X264/matroska.c:435-457 | the group written piecewise, sizes first, is the element of the block |
| MatroskaContext.EbmlSIntSize | X264/matroska.c:290-302 | the size predictor's loop agrees with the writer's |
| MatroskaContext.GroupOctets | X264/matroska.c:435-457 | id, predicted sizes, block and reference laid end to end are one well-formed group element |
| MatroskaContext.UIntDropped | X264/matroska.c:227-237 | dropping leading zero octets of eight gives the shortest body |
| MatroskaContext.SizeBytes | X264/matroska.c:122-142 | the marker bits or-ed into a size give the encoding that the reader expects |
| MatroskaWriter.Writer.constructor | X264/matroska.c:304-327 | a new writer stands for the empty run |
| MatroskaWriter.Writer.CreateContext | X264/matroska.c:60-84 | a context from the pool or a new one: always empty, never one in use |
| MatroskaWriter.Writer.FlushContextData | X264/matroska.c:158-171 | the contents go to the parent, or to the file at its position, and the context is empty |
| MatroskaWriter.Writer.CloseContext | X264/matroska.c:173-191 | the parent gains exactly the element; the offset grows to the absolute one; the context returns to the pool empty |
| MatroskaWriter.Writer.CloseCluster | X264/matroska.c:403-410 | the open cluster becomes the last element of the file |
| MatroskaWriter.Writer.FlushFrame | X264/matroska.c:412-466 | refines one flush of the machine and keeps the pool: free list acyclic, empty, disjoint from contexts in use |
| MatroskaWriter.Writer.StartFrame | X264/matroska.c:468-476 | refines the machine's step |
| MatroskaWriter.Writer.SetFrameFlags | X264/matroska.c:478-489 | refines the machine's step; refused outside a frame |
| MatroskaWriter.Writer.AddFrameData | X264/matroska.c:491-500 | refines the machine's step; refused outside a frame |
| MatroskaWriter.Writer.WriteInfo | X264/matroska.c:361-368 | writes the segment information and remembers where the Duration payload is |
| MatroskaWriter.Writer.WriteTracks | X264/matroska.c:370-394 | writes the track entry with its nested video element |
| MatroskaWriter.Writer.WriteHeader | X264/matroska.c:329-401 | refines the machine's step; a second header is refused and changes nothing |
| MatroskaWriter.Writer.Close | X264/matroska.c:502-516 | the file is the run's file with the Duration computed from stamps, frame duration and time scale patched in |
| AvcMux.AvcCRoundTrip | X264/muxers.c:803-824 | the configuration record, version and reserved bits included, parses back to its SPS and PPS if and only if both lengths fit 16 bits |
| AvcMux.SplitPrefixed | X264/muxers.c:949-956 | length-prefixed units split back into the same units |
| AvcMux.UnitRecords | X264/muxers.c:906-979 | an access unit adds one frame for its units of types 1, 5 and 6 |
| AvcMux.UnitsRecord | X264/muxers.c:906-979 | so does every sequence of access units, in order |
| AvcMux.FirstUnitWritesHeader | X264/muxers.c:963-965 | the header is written with the first SPS and PPS seen |
| AvcMux.UnitsPlaced | X264/muxers.c:906-979 | the header reaches the file before any cluster |
| AvcMux.UnitsReadBack | X264/muxers.c:792-979 | from NAL units to the file and back: codec, sizes and first parameter sets in the header, one frame for each access unit with exactly its units of types 1, 5 and 6 at its time, if and only if no unit that opens a cluster, told from the units, is stamped before zero |
| AvcMux.UnitsFromZero | X264/muxers.c:906-979 | with no stamp before zero the frames of the file are those of the access units |
| AvcMux.UnitSplits | X264/muxers.c:949-956 | each frame splits back into the units of its access unit whose type is 1, 5 or 6, with its key flag, at its stamp divided by 50000 |
| AvcMux.OtherTypes | X264/muxers.c:914-962 | units of other types leave the frame alone, and only types 7 and 8 are kept as parameter sets |
| AvcMux.HeaderExactly | X264/muxers.c:798-801 | the header is written once, with the unit that completes the parameter sets, and refused with an error when one of the four sizes is missing |
| AvcMux.NoSizes | X264/muxers.c:798-801 | with a size missing, no header is written over any access units |
| MkvMuxer.Mkv.WriteNalu | X264/muxers.c:906-968 | one NAL unit makes the writer calls of the muxer function and keeps first parameter sets only |
| MkvMuxer.Mkv.SetEop | X264/muxers.c:970-979 | ends the frame with its stamp and key flag |
| MkvMuxer.Mkv.TakeNalu | X264/muxers.c:906-961 | keeps the first parameter sets and passes units of types 1, 5 and 6 on |
| MkvMuxer.Mkv.WriteHeaderMkv | X264/muxers.c:792-836 | builds the configuration record and hands it to the writer |
| MkvMuxer.Mkv.CloseFile | X264/muxers.c:981-996 | the file is the one of the calls made so far, Duration included |
| Prefetch.SequentialIsSeek | X264/muxers.c:93-109 | reading on from one frame and seeking to the next agree for every frame if and only if four divides width times height |
| Prefetch.CountedIsFull | X264/muxers.c:80-91 | a frame is counted if and only if it is all in the file, when four divides width times height |
| Prefetch.StepMidway | X264/muxers.c:93-109 | each part of reading a full frame keeps position and planes as they must be |
| Prefetch.ReadsDirect | X264/muxers.c:93-109 | a full frame is read as it stands in the file, in whatever order frames are asked for, and the reader ends at the next one |
| Prefetch.StepShort | X264/muxers.c:93-109 | each part of reading ahead into a frame that is not all there stops where the file ends, and the status is that of the last plane |
| Prefetch.YuvInput.ReadFrame | X264/muxers.c:93-109 | the reader object makes these steps, short and failing reads included |
| Prefetch.RunKeeps | X264/muxers.c:436-496 | the protocol invariant holds after every interleaving of caller and worker |
| Prefetch.Transparent | X264/muxers.c:464-496 | over every interleaving each picture returned is the one in the file; its status is 0 unless the frame count is unknown and the frame behind the one asked for before is not there |
| Prefetch.Exclusive | X264/muxers.c:464-496 | for every file, request and interleaving: caller and worker never use the picture or the reader together; a worker is out exactly when next_frame is not negative |
| Prefetch.NeverStuck | X264/muxers.c:464-496 | for every file, request and interleaving: in every reachable state of a call one of the threads brings it closer to its return |
| Prefetch.AnswersRequests | X264/muxers.c:464-496 | over every run the pictures returned answer the requests made, one each and in order, but for the one in progress |
| PrefetchSerial.RunMatches | X264/muxers.c:464-496 | every state of the two threads stands for one of the single thread, with the rest of the read under way |
| PrefetchSerial.Serialized | X264/muxers.c:436-496 | for every file, request and interleaving, short and failing reads included, pictures and statuses are those of one thread that makes the same reads in order |
| PrefetchSerial.ScheduleFree | X264/muxers.c:436-496 | two runs with the same requests return the same, however the threads take turns |
| PrefetchSerial.ReadsExactly | X264/muxers.c:93-109 | a frame that is all there is read unless it is the one expected next and the reader stands past the end; then the call fails |
| PrefetchSerial.MissesNext | X264/muxers.c:97-107 | so after a failed read elsewhere the frame expected next is missed, although it is in the file |
| PrefetchSerial.ServePositions | X264/muxers.c:93-109 | after any requests the reader stands at the frame expected next or past the end |
| CallBuffer.Fitted | CallCenter/Common/buffer.cpp:35-48 | growth gives between 1024 and 2047 bytes more than needed; shrinking happens only above 0x80000, to 0x40000, and still fits |
| CallBuffer.SwapReverses | CallCenter/Common/buffer.h:17 | the masks and shifts of SWAP_LONG reverse the four bytes of a word |
| CallBuffer.ReverseBuffer | CallCenter/Common/buffer.cpp:153-189 | four bytes at a time and then one by one is plain reversal, for every length, and nothing outside is written |
| CallBuffer.ReversedTwice | CallCenter/Common/buffer.cpp:153-189 | reversing twice gives the input back |
| CallBuffer.Buffer.Add | CallCenter/Common/buffer.cpp:35-51 | appends, whatever reallocation happens |
| CallBuffer.Buffer.Insert | CallCenter/Common/buffer.cpp:56-73 | inserts at the offset and keeps both sides |
| CallBuffer.Buffer.Remove | CallCenter/Common/buffer.cpp:78-84 | drops from the front; more than there is is ignored |
| CallBuffer.Buffer.AddBuffer | CallCenter/Common/buffer.cpp:114-121 | moves or copies the front of another queue |
| CallBuffer.Buffer.Prefix | CallCenter/Common/buffer.cpp:131-136 | puts text in front |
| CallBuffer.Buffer.EnsureBuffer | CallCenter/Common/buffer.cpp:138-145 | makes room and keeps the contents |
| CallBuffer.Buffer.AddReversed | CallCenter/Common/buffer.cpp:123-129 | appends the bytes in reverse |
| CallBuffer.Buffer.PeekLine | CallCenter/Common/buffer.cpp:241-282 | finds the first complete line, cut at its last carriage return |
| CallBuffer.Buffer.ReadLine | CallCenter/Common/buffer.cpp:241-282 | takes the line and its line feed off the queue, or nothing |
| CallBuffer.Buffer.StartsWith | CallCenter/Common/buffer.cpp:290-307 | tells whether the queue starts with a text, and removes it on request |
| Packets.FieldReads | CallCenter/Common/Packet.cpp:31-50 | a clean field is read whole, up to its separator, a control character or its limit |
| Packets.ScanPrinted | CallCenter/Common/Packet.cpp:118-150 | scanning with a base taken from the prefix undoes printing, for every integer |
| PacketLines.FieldEnds | CallCenter/Common/Packet.cpp:31-50 | a field ends at its separator, at the characters below 32 and at 127, and at no other |
| PacketLines.HexScans | CallCenter/Common/Packet.cpp:118-129 | behind 0x a number is hexadecimal, in small or capital letters, and ends where a character is no digit of it |
| PacketLines.OctalScans | CallCenter/Common/Packet.cpp:118-129 | behind 0 a number is octal, and ends at an 8 too |
| PacketLines.DecimalScans | CallCenter/Common/Packet.cpp:118-129 | other numbers are decimal |
| PacketLines.PrintsShortest | CallCenter/Common/Packet.cpp:134-150 | numbers are printed with a minus sign only below 0 and without leading zeros |
| PacketLines.SignsScan | CallCenter/Common/Packet.cpp:118-129 | one sign is applied; what does not start with a digit behind it is no number |
| PacketLines.BracketReads | CallCenter/Common/Packet.cpp:31-50 | a field in brackets is read with its separators, but the cursor stops two characters early and the next field starts inside it |
| PacketLines.UnknownExactly | CallCenter/Common/PacketCore.cpp:30-94 | a line is refused if and only if its first word is none of the nineteen commands |
| PacketLines.LineDecodes | CallCenter/Common/PacketCore.cpp:30-94 | what every line of words is read as: fields of their lengths, the rest of a longer word going to the next field, and the defaults of missing ones |
| PacketLines.DeliverLine | CallCenter/Common/PacketCore.cpp:463-501 | the content of a deliver packet is the rest of its line, at most 1024 characters |
| PacketLines.RedLine | CallCenter/Common/PacketCore.cpp:396-440 | the minutes of a red packet are taken modulo 65536 |
| PacketRoundTrip.BindReads | CallCenter/Common/PacketCore.cpp:123-184 | a bind packet, under either of its names, reads back and its reader stops on the carriage return |
| PacketRoundTrip.CtcReads | CallCenter/Common/PacketCore.cpp:288-350 | a line command sent under the name CTC prints its local id where its line is read: it comes back with the id "P" and the number that the first ten characters of its id spell |
| PacketRoundTrip.DialReads | CallCenter/Common/PacketCore.cpp:202-257 | a dial packet reads back with empty ids as "P" |
| PacketRoundTrip.RingReads | CallCenter/Common/PacketCore.cpp:288-364 | a ring packet reads back with empty ids as "P" and its line, absent when -1 |
| PacketRoundTrip.RedReads | CallCenter/Common/PacketCore.cpp:396-440 | a red packet reads back |
| PacketRoundTrip.DeliverReads | CallCenter/Common/PacketCore.cpp:463-501 | a deliver packet reads back, inner spaces of its content included |
| PacketRoundTrip.RecordReads | CallCenter/Common/PacketCore.cpp:522-627 | record and listen packets read back |
| PacketRoundTrip.WaitReads | CallCenter/Common/PacketCore.cpp:646-680 | a wait packet reads back |
| PacketRoundTrip.WalkReads | CallCenter/Common/PacketCore.cpp:693-721 | a walk packet reads back |
| PacketRoundTrip.NumberReads | CallCenter/Common/PacketCore.cpp:737-769 | halt and error packets read back |
| PacketRoundTrip.AchnReads | CallCenter/Common/PacketCore.cpp:792-842 | an achn packet reads back, its reader ending one character later than the others |
| PacketRoundTrip.EchnReads | CallCenter/Common/PacketCore.cpp:860-901 | so does an echn packet |
| PacketRoundTrip.DecodesBack | CallCenter/Common/PacketCore.cpp:30-94 | every sendable packet is dispatched to its own reader and decodes to itself, whatever follows it |
| PacketLoss.RedLost | CallCenter/Common/PacketCore.cpp:405 | a red type longer than ten characters is cut by its reader, although the record holds sixteen |
| PacketLoss.BindLost | CallCenter/Common/PacketCore.cpp:149-184 | an omitted bind field makes a later one arrive in its place |
| PacketLoss.DeliverLost | CallCenter/Common/PacketCore.cpp:463-501 | content without a type, or starting with a space, does not arrive as sent |
| PacketLoss.ReadsBackExactly | CallCenter/Common/PacketCore.cpp:30-94 | a packet with well-formed fields reads back if and only if it is none of these and no CTC with a line or an id other than "P" |
| PacketCodec.ReadField | CallCenter/Common/Packet.cpp:31-50 | the loop with its bracket state computes the field |
| PacketCodec.ReadPacket | CallCenter/Common/PacketCore.cpp:30-94 | reading with a moving cursor computes the packet and its size |
| PacketCodec.EncodeBody | CallCenter/Common/PacketCore.cpp:149-257 | printing field by field appends the packet's line; dial and ring records keep the "P" they sent |
| Handshakes.EncodesOneLine | CallCenter/Common/PacketCore.cpp:149-184 | every sendable packet is one line |
| Handshakes.PollReads | CallCenter/Xcenter/Handshake.cpp:49-73 | polling takes exactly the packet off the queue, whichever end its reader stopped at |
| Handshakes.PollWaits | CallCenter/Xcenter/Handshake.cpp:54 | while the line is incomplete nothing is taken and nothing answered |
| Handshakes.PollProgress | CallCenter/Xcenter/Handshake.cpp:49-73 | on any input a poll with a complete line removes at least a character and nothing beyond the line, unless it read a comma-separated command |
| Handshakes.StuckAchn | CallCenter/Common/PacketCore.cpp:792-815 | an achn command without numbers is read again at every poll while nothing follows it in the queue |
| Handshakes.RefusalResyncs | CallCenter/Xcenter/Handshake.cpp:59-63 | a line whose first word is no command is answered with error 8000 and dropped whole exactly when its last carriage return, if it has any, ends it |
| CommaFraming.AfterFields | CallCenter/Common/PacketCore.cpp:792-901 | where the reader of numbers stands after any number of fields, fewer or more than it wants |
| CommaFraming.CommaValues | CallCenter/Common/PacketCore.cpp:792-901 | the numbers an ACH or ECH line is read as, and their defaults |
| CommaFraming.PollDrops | CallCenter/Xcenter/Handshake.cpp:65-70 | what a poll that read such a command takes off the queue |
| CommaFraming.CommaOutcome | CallCenter/Common/PacketCore.cpp:792-901 | what a poll leaves for every number of fields, too many and too few included, whatever follows |
| CommaFraming.BareOutcome | CallCenter/Common/PacketCore.cpp:792-901 | the same for a command with no field at all: the numbers are taken from the packets behind it |
| CommaFraming.FramesExactly | CallCenter/Common/PacketCore.cpp:792-901 | an ACH or ECH line is taken exactly, whatever follows, if and only if it has as many fields as the command has numbers, or one more that is empty |
| CommaFraming.ShortEats | CallCenter/Common/PacketCore.cpp:792-901 | with one field too few the poll also takes the first character of the next packet, or, when there is none, leaves everything |
| HandshakeLink.Handshake.OnWrite | CallCenter/Common/connection.cpp:302-330 | bytes move from the front of the queue to the socket, some or all, none lost, and never past a multiple of 2^20 of what is queued |
| HandshakeLink.Handshake.OnRead | CallCenter/Common/connection.cpp:267-297 | bytes move from the socket to the end of the queue, some or all, none lost, and never past a multiple of 2^20 of what has arrived |
| HandshakeLink.Handshake.SendPacket | CallCenter/Xcenter/Handshake.cpp:89-97 | the packet's line goes behind everything queued before it, and the socket takes some of the queue |
| HandshakeLink.Handshake.ReadBuffer | CallCenter/Xcenter/Handshake.cpp:49-73 | the object polls as the function does, reply included |
| Wire.RunSound | CallCenter/Common/connection.cpp:267-330 | over every run of two endpoints the packets received are the first ones sent, the others are the bytes on the way, and nothing is refused |
| Wire.BytesConserved | CallCenter/Common/connection.cpp:267-330 | both ways: text of the packets received, receiver's queue, receiver's socket, connection and sender's queue make up all that was printed |
| Wire.QuietDelivers | CallCenter/Xcenter/Handshake.cpp:49-97 | both ways: when nothing is left to move or poll, everything sent has been received |
| Wire.ReceivedIsPrefix | CallCenter/Xcenter/Handshake.cpp:49-97 | in every reachable state each side has received a prefix of what the other sent, empty dial and ring ids as "P" |
| Wire.ChunkIndependent | CallCenter/Common/connection.cpp:267-330 | both ways: two runs that send the same packets and come to rest deliver the same, however the bytes were cut up |
| WireDelivery.DeliversExactly | CallCenter/Common/connection.cpp:267-330 | from a sound state the run can go on, without sending, until all has been received, if and only if the sender's queue and what has arrived at the receiver's socket are each shorter than 2^20 |
| WireDelivery.CanDeliver | CallCenter/Common/connection.cpp:267-330 | the same for every reachable state and both ways |
| WireDelivery.StuckExample | CallCenter/Common/connection.cpp:313-315 | after 262144 packets of four bytes that the socket did not take, they are never all delivered unless more is sent |
| WireEndpoints.Endpoint.OnWrite | CallCenter/Common/connection.cpp:302-330 | one write step of the machine |
| WireEndpoints.Endpoint.OnRead | CallCenter/Common/connection.cpp:267-297 | one read step of the machine |
| WireEndpoints.Endpoint.SendPacket | CallCenter/Xcenter/Handshake.cpp:89-97 | a send and then a write |
| WireEndpoints.Endpoint.ReadBuffer | CallCenter/Xcenter/Handshake.cpp:49-73 | a take, and a write when the line is refused |
| Wire.FrontPolls | CallCenter/Xcenter/Handshake.cpp:49-73 | a queue cut off anywhere yields the first packet once its line is whole, and nothing before |
| Pipelines.PollKeeps | CallCenter/Common/Pipeline.cpp:324-366 | a poll keeps the write invariant if and only if the write starts, or one is pending, or nothing had been transferred |
| Pipelines.ExactlyOnce | CallCenter/Common/Pipeline.cpp:324-366 | over every run in which writes start, bytes are confirmed and delivered once, in order, and the write in flight is the front of the queue |
| Pipelines.LosesExactly | CallCenter/Common/Pipeline.cpp:324-366 | over every run, refused writes included: at all times only bytes the pipe has taken are confirmed, if and only if no poll finds a count that was already collected and a queue at least as long |
| Pipelines.NoLossKeeps | CallCenter/Common/Pipeline.cpp:324-366 | in such a run what was queued is what is confirmed and what is still queued, and bytes are delivered once and in order |
| Pipelines.LossStep | CallCenter/Common/Pipeline.cpp:349-366 | what such a poll loses: as many bytes from the front of the queue as the stale count says |
| Pipelines.RefusedLosesExactly | CallCenter/Common/Pipeline.cpp:324-366 | one refused write, text of any length and another poll: bytes are confirmed that were never delivered exactly when the write before transferred some and at most half of what is queued then |
| Pipelines.RefusedLoses | CallCenter/Common/Pipeline.cpp:337-344 | an example of such a loss: two of four bytes are delivered and the queue is empty |
| Pipelines.Pipeline.OnWrite | CallCenter/Common/Pipeline.cpp:324-347 | the object makes the machine's step, whether the write starts, has nothing to take or is refused, and fails only when it is refused |
| Pipelines.Pipeline.OnWriteCompleted | CallCenter/Common/Pipeline.cpp:349-366 | what was transferred leaves the queue |
| Pipelines.Pipeline.Send | CallCenter/Xcenter/Interlink.cpp:130-146 | queues and polls, whatever becomes of the write |
| Pipelines.Pipeline.OnRead | CallCenter/Common/Pipeline.cpp:270-293 | every completed read is in the input queue once before another starts; a failed read drops the connection |
| Pipelines.Pipeline.OnReadCompleted | CallCenter/Common/Pipeline.cpp:295-319 | m_nBuffer tells whether a completed read has still to be added; a broken one drops the connection and adds nothing |
| XmlText.TidyKept | CallCenter/Common/xml.cpp:73-162 | a value is read as itself if and only if it has no leading or repeated white space, none but spaces, and no ampersand that is last or starts a reference |
| XmlText.Value | CallCenter/Common/xml.cpp:73-162 | never yields more characters than it is given, whatever the text |
| XmlText.Match | CallCenter/Common/xml.cpp:32-48 | a match moves strictly forward and never past the end |
| XmlEscapes.CharReads | CallCenter/Common/xml.cpp:97-140 | each reference the escaping printer writes is read as the character it stands for, and nothing behind it is touched |
| XmlEscapes.EscapedReads | CallCenter/Common/xml.cpp:167-235 | the reader undoes the escaping printer, which the source has switched off, for every text with tidy white space |
| XmlTree.ParseElement | CallCenter/Common/xml.cpp:505-584 | reading an element ends on every text and moves strictly forward when it succeeds |
| XmlTree.ParseAttrs | CallCenter/Common/xml.cpp:513-542 | reading the attributes ends on every text and moves strictly forward when it succeeds |
| XmlRoundTrip.QuotedReads | CallCenter/Common/xml.cpp:844-871 | a printed attribute value reads as the reader sees it, and fails exactly when something unread but blanks is left |
| XmlRoundTrip.SingleQuoted | CallCenter/Common/xml.cpp:858-866 | an attribute in single quotes is read as one in double quotes is |
| XmlRoundTrip.AttrsRead | CallCenter/Common/xml.cpp:413-418 | printed attributes read back in order, a later one replacing one with the same lower-case name |
| XmlRoundTrip.ContentReads | CallCenter/Common/xml.cpp:431-441 | printed children and text read back, line breaks between them leaving no trace |
| XmlRoundTrip.ElementReads | CallCenter/Common/xml.cpp:409-442 | for every printable tree and whatever follows it, reading the printed element gives the tree with every value as the reader sees it, or nothing |
| XmlDocuments.DocumentReads | CallCenter/Common/xml.cpp:399-503 | the same for documents with or without header; a missing header that was asked for is the only other failure |
| XmlDocuments.CommentIgnored | CallCenter/Common/xml.cpp:561-566 | a comment whose text does not end it early leaves no trace in the content |
| XmlDocuments.LeadingComment | CallCenter/Common/xml.cpp:464-469 | nor does one in front of the element |
| XmlMixed.MixedReads | CallCenter/Common/xml.cpp:544-584 | content of texts, comments and children in any order: texts are joined with one space unless one is there, children are read in order |
| XmlMixed.MixedElement | CallCenter/Common/xml.cpp:505-584 | the same for a whole element |
| XmlMixed.TwoTexts | CallCenter/Common/xml.cpp:551-552 | two tidy texts around a comment or a child are joined by exactly one space |
| XmlLexicon.NameChars | CallCenter/Common/xml.cpp:50-68 | names are made of letters, digits, colons, underscores and hyphens |
| XmlLexicon.LowerLetters | CallCenter/Common/xml.cpp:526-532 | keys are lower-case: capitals become small letters and nothing else changes |
| XmlLexicon.BlankChars | CallCenter/Common/xml.cpp:32-48 | before a token, spaces, tabs and line breaks are skipped and nothing else |
| XmlLexicon.SpaceChars | CallCenter/Common/xml.cpp:85-91 | in a value the six white-space characters become one space, and other characters are kept |
| XmlLexicon.EntityNames | CallCenter/Common/xml.cpp:97-126 | the six entities, in any case, and no others |
| XmlLexicon.NumberReference | CallCenter/Common/xml.cpp:127-140 | a number is taken modulo 256 and everything up to its semicolon is passed over |
| XmlLexicon.OpenReference | CallCenter/Common/xml.cpp:127-140 | a number without a semicolon costs the rest of the value |
| XmlLexicon.NoNumber | CallCenter/Common/xml.cpp:127-131 | a number sign without a digit stops the value behind it |
| XmlLexicon.HeaderPassed | CallCenter/Common/xml.cpp:456-462 | a header of any version is passed over |
| XmlLexicon.DoctypePassed | CallCenter/Common/xml.cpp:471-476 | a document type is passed over up to its first greater-than sign |
| XmlPrefixes.DocumentCuts | CallCenter/Common/xml.cpp:447-584 | what the reader makes of every proper prefix of every printed document |
| XmlPrefixes.PrefixesExactly | CallCenter/Common/xml.cpp:32-48 | of those it takes for an element exactly the ones that end with the first character of a child, as the element up to there, and the ones that end inside the end tag, as the whole element |
| XmlDocuments.TidyAttrsRead | CallCenter/Common/xml.cpp:413-418 | attributes read back as themselves if and only if every value is tidy |
| XmlEquality.EqualsIff | CallCenter/Common/xml.cpp:681-714 | on well-keyed elements the comparison by lookup is equality |
| XmlEquality.ListedIs | CallCenter/Common/xml.cpp:347-369 | copying in any iteration order gives the same element |
| XmlEquality.CloneEquals | CallCenter/Common/xml.cpp:347-369 | a copy equals its source if and only if the source is well keyed; the source equals its copy if and only if no two attributes of a node share a name up to case |
| XmlEquality.EqualsSame | CallCenter/Common/xml.cpp:681-714 | a well-keyed element that equals another is the same element |
| XmlEquality.MiskeyedCopy | CallCenter/Common/XML.inl:195-203 | an attribute object added under its name as written makes the comparison one-sided: an example |
| XmlEquality.ReadWellKeyed | CallCenter/Common/xml.cpp:447-584 | whatever the text, what is read is well keyed |
| XmlEquality.TidyReads | CallCenter/Common/xml.cpp:399-584 | a tree comes back as itself if and only if it is tidy |
| XmlWeights.ElementReadWeight | CallCenter/Common/xml.cpp:505-584 | reading never makes more markup characters than it takes: those of the element's print and of what is left are at most those of the text, whatever the text |
| XmlWeights.PrintWeight | CallCenter/Common/xml.cpp:409-442 | in every attribute order and layout the print of an element has the same number of them |
| XmlExact.OnlyPrintable | CallCenter/Common/xml.cpp:399-584 | what is read as the element it was printed from had identifiers for names, no less-than sign in its texts and no double quote in its attribute values |
| XmlExact.ReadsExactly | CallCenter/Common/xml.cpp:399-584 | for every element, attribute order and layout it comes back as itself if and only if it is well keyed, tidy and nameable, and a header that is asked for is there |
| XmlExact.RoundTrip | CallCenter/Common/xml.cpp:399-714 | for every element: what is read equals the original if and only if that is well keyed, tidy and nameable; the original equals what is read if and only if it is unambiguous, tidy and nameable, provided it is one of the first and last |
| XmlEquality.SourceRead | CallCenter/Common/xml.cpp:399-714 | the original finds all it had in what is read if and only if no two attributes of a node share a name and every value is tidy |
| XmlReader.Cursor.ParseMatch | CallCenter/Common/xml.cpp:32-48 | the loop matches as the function does and leaves the cursor alone on failure |
| XmlReader.Cursor.ParseIdentifier | CallCenter/Common/xml.cpp:50-68 | the loop reads the longest name |
| XmlReader.Cursor.StringToValue | CallCenter/Common/xml.cpp:73-162 | the loop stores the value and stops where the function leaves off |
| XmlParser.ParseAttribute | CallCenter/Common/xml.cpp:844-871 | reads one attribute in either kind of quotes |
| XmlParser.ParseAttributes | CallCenter/Common/xml.cpp:513-542 | the attribute loop reads the start tag to its end |
| XmlParser.ReadText | CallCenter/Common/xml.cpp:546-556 | reads the text up to the next markup and joins it to the value |
| XmlParser.PassProlog | CallCenter/Common/xml.cpp:456-483 | passes header, comments and document type |
| XmlPrinter.KeyedSnoc | CallCenter/Common/xml.cpp:351-358 | storing one more attribute under its lower-case name extends the copied map |
| XmlElements.XmlElement.ParseString | CallCenter/Common/xml.cpp:505-584 | the recursive reader fills the element object with the tree the text spells, all children new objects, and leaves the cursor behind it |
| XmlElements.XmlElement.ParseInner | CallCenter/Common/xml.cpp:544-584 | the content loop reads text, comments and children to the end tag, adding to the lists in place |
| XmlElements.FromText | CallCenter/Common/xml.cpp:447-503 | reading a document ends on every text and gives the element or null as the function says |
| XmlElements.XmlElement.PrintTo | CallCenter/Common/xml.cpp:409-442 | the loops print a listing of the element: every attribute once, in the order the map yields |
| XmlElements.XmlElement.ToString | CallCenter/Common/xml.cpp:399-407 | header and first line break come before it |
| XmlElements.XmlElement.Clone | CallCenter/Common/xml.cpp:347-369 | builds a tree of new objects; a well-keyed element is copied exactly |
| XmlElements.XmlElement.Equals | CallCenter/Common/xml.cpp:681-714 | the loops decide equality by lookup for any two elements, also when one is inside the other; an element equals itself, and only a shared child that is ill keyed can make a difference |
| XmlElements.XmlElement.AddTail | CallCenter/Common/XML.inl:115 | a tree apart from this one becomes the last child |
| XmlElements.XmlElement.AddNewElement | CallCenter/Common/XML.inl:112-117 | a new child of that name, whose parent is this element, at the end of the list |
| XmlElements.XmlElement.AddElement | CallCenter/Common/XML.inl:119-125 | a child that has a parent is refused, wherever it stands; otherwise it is appended and this element becomes its parent |
| XmlElements.XmlElement.AddAttribute | CallCenter/Common/XML.inl:178-193 | sets or adds by name in any case, and keeps the element well keyed |
| XmlElements.XmlElement.AddAttributeObject | CallCenter/Common/XML.inl:195-203 | an attribute that has a parent is refused; otherwise it is stored, and keeps the element well keyed exactly when its name is written in lower case |
| XmlPackets.WholePolls | CallCenter/Common/PacketBase.cpp:74-122 | polling a whole packet gives the tree as it reads back and leaves exactly what follows, line breaks inside the tree notwithstanding |
| XmlPackets.WholeTaken | CallCenter/Common/PacketBase.cpp:74-122 | whatever the text of a whole packet is read as, exactly the packet leaves the queue |
| XmlPackets.TreeArrives | CallCenter/Xphone/channel.cpp:92-119 | for every tree and attribute order it arrives if and only if it is well keyed, tidy and nameable and its name suits the packet |
| XmlPackets.WordsExactly | CallCenter/Common/PacketBase.cpp:32-62 | a packet is read if and only if its first word is one of the four, and as the kind of that word |
| XmlPackets.OthersRefused | CallCenter/Xphone/channel.cpp:92-119 | a line with another first word is answered with error 8000 and dropped whole exactly when its last carriage return, if it has any, ends it |
| XmlPackets.LengthScans | CallCenter/Common/PacketBase.cpp:82-90 | the length is decimal in spite of leading zeros, with one sign, up to what is no digit |
| XmlPackets.PartialPolls | CallCenter/Xphone/channel.cpp:107-115 | what a poll does to every proper prefix of a packet: wait, spoil the queue, or deliver and keep |
| XmlChannel.PutXml | CallCenter/Common/PacketBase.cpp:103-122 | appends the packet of some listing of the element |
| XmlChannel.ReadXml | CallCenter/Common/PacketBase.cpp:32-101 | reads id, length and element |
| XmlChannel.ReadBuffer | CallCenter/Xphone/channel.cpp:92-119 | the channel polls as the function does, reply included |
| Hunting.NetworkChild.FindChannel | CallCenter/Xcenter/CtrlNetworkChild.cpp:251-267 | the loop finds the first match round the circle and remembers it; without one it ends where it started |
| Hunting.NetworkChild.GetChStateCount | CallCenter/Xcenter/CtrlNetworkChild.cpp:269-282 | counts the channels in a state |
| Hunting.ScanFirst | CallCenter/Xcenter/CtrlNetworkChild.cpp:251-267 | what is found is the first match after the retained item, none before it |
| Hunting.NoneExactly | CallCenter/Xcenter/CtrlNetworkChild.cpp:251-267 | nothing is found exactly when no channel is in the wanted state |
| Hunting.EachOnce | CallCenter/Xcenter/CtrlNetworkChild.cpp:251-282 | while the states stay, as many calls as there are matching channels return each of them exactly once |

## Left out

- The recorder's timing: greatest common divisors and frame rates are floating-point or parameters of the calls; the rounding of the Duration to a float is a parameter.
- Failing allocations and file writes, and the freeing of memory at exit.
- MatroskaContext.Context.Append: the block is a sequence whose length is the capacity, not an array; what is past the contents is not tracked.
- MatroskaWriter.Writer.SetFrameFlags: stamps are bounded by 2^62, so that scaling and differences stay in 64 bits.
- MatroskaWriter.Writer.AddFrameData: a frame is bounded by 0x7fe00000 octets, so that the sizes of the elements around it fit 32 bits.
- The bind record carries no user or password.
- PacketCodec.EncodeBody: numbers that do not fit the ten-character formatting field are not excluded by the printer; the round trip asks for it.
- Wire.RunSound: what a packet makes the application do, closing and reconnecting.
- XmlPackets.PartialPolls: lengths of -1 and -2, which wrap around in the completeness test.
- XmlElements.XmlElement.AddElement: a child list is grown in a tree whose root is this element, by a tree apart from it when the child has no parent; removing an element is not modelled. Attributes are values, and whether one has a parent is a parameter.
- XmlExact.RoundTrip: the comparison from the original's side when it is neither unambiguous nor nameable.
- Prefetch.Transparent: what a picture holds of a frame that is not all in the file is the reader's short read (PrefetchSerial.Serialized); closing the file while the worker runs.
- Pipelines.Pipeline.OnRead: peeking at the pipe is the test whether bytes are waiting; a read collected with another error than a broken pipe, and the loss of both queues when a dropped pipe is closed, are not modelled.
- Hunting.NetworkChild.FindChannel: the board's states do not change during a call; the table lookup of the channel object is its number.
- UTF-16 and byte-order marks, archive serialization and word lists of XML elements.
- The other recorder formats, the encoder, and all user interface, telephony-board and streaming code.
