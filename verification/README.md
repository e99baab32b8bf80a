# Model of chan_datacard's audio, message and call handling

chan_datacard is an Asterisk channel driver for GSM modems. This project models the parts of it that keep state of
their own, in Dafny, and proves what they keep over every run: the byte ring and the mixing buffer for voice, the
framing of the modem's replies, the queue of AT commands, the registry of calls, the coders of short messages, and
the choice of a device in a group. `dafny verify dfyconfig.toml` checks everything.

Each part is written at the level of its own state. Code that changes things in place is a class or a method over an
array, proved against functions on sequences; the laws are then proved of those functions.

- **Voice.** `Samples`, `RingBuffer` and `MixBuffer` are the ring, the search in it, and the streams that mix into it,
  each with a cursor of its own, kept in a list (`Lists`); `RingSearch` says when the search is right, `MixLaws` that
  the wrapped ring is one linear sequence with an offset per stream, `MixRefinement` that the code takes the steps
  those laws are about, and `AudioPath` what goes in and out.
- **Replies.** `AtRead` cuts the bytes into frames, `AtResponses` classifies them, `AtReplies` says by which texts, and
  `AtIds` and `AtFraming` what the two do together; `AtMonitor` runs them over what waits and `AtLoop` over what is
  read. `AtStream` is what a modem sends, `AtStands` follows a stream through the ring, `AtChunks` says for which reads
  its replies come out right, and `AtEmptyLines` what is lost for the others.
- **Commands.** `AtQueue` is the queue; `AtQueueRuns` follows its counters, its order and its history over every run;
  `AtAnswers` says what each reply does to it, and `AtTasks` draws the conclusions for messages and for dialling.
- **Calls.** `Calls` is the registry with its counters, flags, mixer list and references; `CallEffects` says what each
  event does to them, `CallRuns`, `CallSteps` and `CallVoices` what they keep over every run, and `CallCode` that the
  code takes the steps of these runs; `Dialing` is the admission of requests; `RoundRobin` the choice of a device.
- **Messages.** `Octets`, `HexText`, `Septets` and `SeptetCodec` are the coders of char_conv.c; `PduTables`,
  `PduFields`, `PduAddress`, `PduParse` and `PduBuild` follow pdu.c, with `PduDeliver`, `PduAccept`, `PduSubmit` and
  `PduLoopback` for the messages they are compared with, and `Buffers` for writing into a buffer.

What belongs to Asterisk, to the C library or to the outside is a parameter: the addition of two samples, the
conversion to UCS-2, what sscanf makes of characters that are not digits, whether memory, a pipe, a channel or a
write is to be had, whether a device can dial, and the bytes that follow a search pattern in memory.

## What turned out not to hold

- The search across the end of the ring (ringbuffer.c:188) compares the part behind the end with the bytes that start
  `i` into the pattern, not with its last `i` bytes. For two bytes this is the same; for the seven bytes that end a
  multi-line reply it never is, so such a reply is not recognised when its end straddles the end of the buffer.
  `RingSearch.SearchIsRightIff` gives the exact condition, and the framing is stated with what the code does.
- A sample cut in two by the end of the ring is not added (mixbuffer.c:36-37). `MixLaws.CutIsInvisibleIff` says when
  this shows; on even lengths it does not.
- The packer adds an octet when eight divides the length (char_conv.c:199-202), which its own test of the room and
  pdu_parse (pdu.c:707) do not expect: `Septets.RoomAskedIsRoomUsedIff`, `PduLoopback.PackedIsAcceptedIff`.
- Replies depend on the reads for streams with an empty line in front of one of three replies (at_read.c:163), and for
  stored messages that wrap: `AtStream.EmptyLineReportedIff` for one such line, `AtChunks.SameRepliesIff` for a stream,
  `AtEmptyLines.LineIsLost` for what becomes of the reply, with `ReadWhole` and `ReadInTwo` as an instance.
- A number of odd length whose filler is a digit is accepted and stored without its NUL (pdu.c:460-466):
  `PduFields.EndsWithNulIff`. The test of the room forgets the '+' (pdu.c:438): `PduFields.StoredLength`.
- Activation with the audio port closed puts a stream into the mixer without marking the call (channel.c:297-309):
  `CallSteps.ActivationIsRightIff`. In every run the port is open while there are calls.
- The round-robin search begins at the second member when none is marked, and a request that finds nobody takes all
  marks off (chan_datacard.c:973-1019).

## Model

| member | source | states |
|---|---|---|
| Samples.SaturatedSum | mixbuffer.c:31-41 | two stretches are added sample by sample in place; every byte is that of the pairwise sum, and an odd last byte keeps its value |
| Samples.MixSplit | mixbuffer.c:31-41 | adding in two pieces is adding at once when the pieces meet between two samples |
| RingBuffer.RingBuffer.constructor | ringbuffer.h:28-35 | an empty ring on a buffer of any size |
| RingBuffer.RingBuffer.Init | ringbuffer.h:28-35 | the ring is empty again and starts at the front of the buffer |
| RingBuffer.RingBuffer.Memcmp | ringbuffer.c:18-51 | 0 exactly when the unwrapped content starts with the bytes given, -1 exactly when there are too few to tell, wherever the content wraps |
| RingBuffer.RingBuffer.ReadAllIov | ringbuffer.c:53-75 | the vectors, laid end to end, are the whole content |
| RingBuffer.RingBuffer.ReadNIov | ringbuffer.c:77-104 | the vectors are exactly the first len bytes, and there are none exactly when fewer wait |
| RingBuffer.RingBuffer.ReadUntilChar | ringbuffer.c:106-144 | the vectors are the bytes before the first c, and there are none exactly when c does not occur |
| RingBuffer.Memmem | memmem.c:42-68 | the first occurrence, or that there is none |
| RingBuffer.MoveWindow | ringbuffer.c:178-204 | the loop over the places that straddle the end of the buffer tests each once and reads only used bytes |
| RingBuffer.RingBuffer.ReadUntilMem | ringbuffer.c:146-230 | the vectors are the bytes before the first place at which the code's comparison succeeds; none when it succeeds nowhere. The comparison differs from equality where the pattern straddles the end of the buffer |
| RingSearch.SearchIsRightIff | ringbuffer.c:146-230 | with h bytes before the end of the buffer and n in all, the search stops at the first occurrence for every content exactly when each way the pattern can straddle that end compares the right bytes |
| RingSearch.SafeSplitsExact | ringbuffer.c:175-204 | one direction of it, for one content: every tested place is an occurrence and the other way round |
| RingSearch.UnsafeSplitMisses | ringbuffer.c:186-193 | the other direction: a content that holds the pattern once, where the search misses it |
| RingSearch.ShortPatternsExact | ringbuffer.c:146-230 | patterns of one or two bytes, such as a line end, are always found where they first occur |
| RingSearch.ExactWithoutWrap | ringbuffer.c:215-225 | any pattern is found where it first occurs while the content does not run past the end of the buffer |
| RingSearch.LastLineStraddling | at_read.c:177 | the end of a multi-line reply is never recognised where it straddles the end of the buffer |
| RingSearch.FalseLastLine | at_read.c:177 | bytes that are not the end of a reply are taken for it |
| RingBuffer.RingBuffer.ReadUpd | ringbuffer.c:232-266 | drops the len oldest bytes, or all when there are fewer; an emptied ring starts over at the front |
| RingBuffer.RingBuffer.WriteIov | ringbuffer.c:315-341 | the vectors are exactly the free bytes, in the order in which they will become content |
| RingBuffer.RingBuffer.WriteUpd | ringbuffer.c:343-371 | bytes placed in those vectors join the content behind it; the cursor may stay at the end of the buffer |
| RingBuffer.RingBuffer.WriteCore | ringbuffer.c:373-411 | combines data with the bytes behind the content and takes them in; a region across the end of the buffer is combined in two pieces |
| RingBuffer.RingBuffer.Write | ringbuffer.h:69-72 | a plain append of what fits |
| RingBuffer.PutBytesView | ringbuffer.c:379-405 | the one or two stretches written into the buffer are one stretch of the unwrapped content |
| MixBuffer.MixBuffer.Attach | mixbuffer.c:14-21 | a new stream starts at the oldest byte in the ring and is last in the list |
| MixBuffer.MixBuffer.Detach | mixbuffer.c:24-28 | the stream and no other leaves the list |
| MixBuffer.MixBuffer.MixWrite | mixbuffer.c:44-66 | the cursors swapped through the one ring are put back, and the bytes are combined at the stream's own offset |
| MixBuffer.MixBuffer.Write | mixbuffer.c:69-99 | the bytes that fit are combined with those from the stream's offset on and the rest appended; no other stream and no other byte changes |
| MixBuffer.MixBuffer.ReadUpd | mixbuffer.c:102-121 | the oldest bytes go, and every stream's offset goes back by as many, but not below 0, its cursor staying at (read + offset) mod size |
| MixLaws.CutIsInvisibleIff | mixbuffer.c:31-66 | a write means the same on the wrapped ring and on a linear sequence, for every addition and every content, exactly when the end of the buffer does not cut a sample in two |
| MixLaws.CutBetweenSamples | mixbuffer.c:44-66 | the direction used below, for one write |
| MixLaws.OddCutShows | mixbuffer.c:36-37 | the other direction: at any odd cut some write comes out differently |
| MixLaws.EvenStepIsLinear | mixbuffer.c:14-121 | each operation on whole samples is the operation on one sequence with an offset per stream |
| MixLaws.RunIsLinear | mixbuffer.c:14-121 | so is every run of attach, detach, write and read-advance on even lengths |
| MixLaws.StepKeepsProper | mixbuffer.c:14-121 | no offset ever passes the end of the content and the content never outgrows the buffer |
| MixLaws.StepKeepsEven | mixbuffer.c:14-121 | on even lengths every offset and length stays even |
| MixLaws.WriteInPieces | mixbuffer.c:69-99 | a stream that delivers its voice in pieces of whole samples has the effect of one write |
| MixRefinement.Attach | mixbuffer.c:14-21 | the method performs the abstract step that the laws are about |
| MixRefinement.Detach | mixbuffer.c:24-28 | the same for detaching |
| MixRefinement.Write | mixbuffer.c:69-99 | the same for writing |
| MixRefinement.Read | mixbuffer.c:102-121 | the same for read-advance |
| AudioPath.LeastDrop | channel.c:812-820 | no smaller number of dropped bytes would make room for the frame |
| AudioPath.ChannelWrite | channel.c:812-828 | a frame no longer than the ring is stored whole, at the cost of exactly the missing number of oldest bytes; a longer one fills the ring |
| AudioPath.TimingWrite | channel.c:489-538 | every tick describes exactly one frame, the oldest mixed bytes and then silence, and takes those bytes from the ring |
| HexText.DigitsInOrder | char_conv.c:66-118 | the sixteen digits in their order, read in either case and written in upper case |
| HexText.HexRoundTrip | char_conv.c:66-118 | reading the digits of octets gives the octets |
| SeptetCodec.Chars8bitToHexstr | char_conv.c:98-118 | the text of the octets and a NUL, inside the room given, or no change at all |
| SeptetCodec.HexstrTo8bitchars | char_conv.c:66-96 | accepts exactly texts of digits of even length that fit, and then stores their octets |
| Septets.PackedBits | char_conv.c:162-207 | bit k of character i stands at bit 7i+k of the packed stream, section 6.1.2.1.1 of 3GPP TS 23.038, with zeros behind |
| SeptetCodec.CharToHexstr7bit | char_conv.c:162-207 | what it stores for 7-bit characters is that stream in digits; the length returned, the NUL, and what stays unchanged |
| SeptetCodec.Hexstr7bitToChar | char_conv.c:209-252 | what it stores is the characters at those bit positions; it fails exactly when the room or a pair of digits is missing |
| Septets.UnpackPackUpTo | char_conv.c:162-252 | unpacking any number of packed octets gives as much of the text as they hold, then NULs |
| Septets.PackRoundTrip | char_conv.c:162-252 | unpacking what the driver packs gives the text back, followed by one NUL exactly when its length is 0 or 7 modulo 8 and not 0 |
| Septets.StandardRoundTrip | char_conv.c:209-252 | unpacking the packing of section 6.1.2.1.1 of 3GPP TS 23.038 gives it back, followed by one NUL exactly when its length is 7 modulo 8 |
| SeptetCodec.TextRoundTrip | char_conv.c:162-252 | the same through the digits and the scanner |
| Septets.PackedLengthIsLeastIff | char_conv.c:199-202 | the packer emits the least number of octets exactly when eight does not divide the length, and one more when it does |
| Septets.RoomAskedIsRoomUsedIff | char_conv.c:171-175 | the packer's own test of the room asks for what it uses exactly then, and for one octet too little otherwise |
| SeptetCodec.GetEncodingToSend | char_conv.c:289-297 | packed septets exactly for texts without an octet of eight bits |
| SeptetCodec.GetEncodingReceived | char_conv.c:298-310 | received text is never taken for digits |
| SeptetCodec.Utf8ToHexstrUcs2 | char_conv.c:141-160 | succeeds exactly when the conversion does and there are four characters of room an octet; no more than that is written |
| PduTables.DigitTables | pdu.c:275-357 | the codes of the digits of section 9.1.2.3 of 3GPP TS 23.040, one by one, and that nothing else has one |
| PduTables.DigitRoundTrip | pdu.c:275-357 | a digit survives the two tables, in upper case |
| PduTables.ValidityIsLeast | pdu.c:359-381 | the code chosen is the least whose period, section 9.2.3.12.1 of 3GPP TS 23.040, is long enough: encode(m) <= v exactly when m <= decode(v) |
| PduTables.ValidityRoundsUp | pdu.c:359-381 | so encoding is monotone, never shortens, is exact on the periods themselves, caps at the longest, and is off the scale for no minutes |
| PduFields.OctetRead | pdu.c:384-405 | the octet by its two characters; the first digit alone when only the second is none; -1 when the first is none |
| PduFields.Cursor.ParseByte | pdu.c:384-405 | the octet so read, pointer and length moving together |
| PduFields.Cursor.ParseSca | pdu.c:475-495 | the address of the centre is stepped over, pointer and length together |
| PduFields.Cursor.ParseTimestamp | pdu.c:497-506 | fourteen characters are stepped over or none |
| PduFields.Cursor.ParseNumber | pdu.c:434-472 | what it stores, where it stops and what it returns, on every text, within a buffer that has room for the digits and a NUL, and for '+' when the number is international |
| PduFields.StoredLength | pdu.c:438-466 | an accepted number takes its digits and one character more, and yet one more exactly when its type is 0x91; so the test of the room is enough exactly when it is not |
| PduFields.EndsWithNulIff | pdu.c:452-466 | an accepted number ends with a NUL exactly when its digits are even in number or the filler stands beside the last; a digit in the filler's place takes the NUL's |
| PduFields.DigitsStep | pdu.c:452-464 | the loop's progress: what one pair adds to the digits stored so far |
| PduAddress.StoreNumber | pdu.c:415-431 | digits swapped in pairs, a filler beside an odd last one, and nothing else touched |
| PduAddress.DigitsOfSemiOctets | pdu.c:415-472 | reading a stored number gives its digits in upper case, for any length |
| PduParse.ParsePdu | pdu.c:650-805 | its verdict, the sender, the place of the text and where the pointer is left, on every text and for any room for the sender; pointer and length stay in step but for the two characters three refusals step back |
| PduParse.ParseTpdu | pdu.c:661-699 | the stage from the PDU type to the protocol identifier |
| PduParse.ParseData | pdu.c:681-755 | the stage from the coding scheme to the user data |
| PduParse.ParseHeader | pdu.c:710-731 | the user data header is stepped over when it is all there |
| PduDeliver.DeliverIff | pdu.c:661-665 | the first octets taken for an SMS-DELIVER are those with type 0, bit by bit, and a header is looked for exactly when bit 6 announces one |
| PduDeliver.CodingIff | pdu.c:685-699 | the coding schemes taken are the general uncompressed ones of section 4 of 3GPP TS 23.038 with a known alphabet, and the 7-bit, the 8-bit and the UCS-2 alphabet are each reported as what they are |
| PduDeliver.LengthIff | pdu.c:702-708 | the user data length counts septets, which take the least number of octets, or octets |
| PduDeliver.ParseInvertsText | pdu.c:650-805 | pdu_parse accepts the text of every well-formed SMS-DELIVER of section 9.2.2.1 of 3GPP TS 23.040 whose sender and a NUL find room, and reports its sender, its coding by name and its user data after any header |
| PduAccept.ReadsMeansAccepted | pdu.c:650-755 | every text that reads so field by field is accepted, with its coding and the place of its text |
| PduAccept.AcceptedMeansReads | pdu.c:650-755 | and nothing else is accepted |
| PduDeliver.NumberHere | pdu.c:434-472 | the sender is reported with '+' exactly when its type is 0x91 |
| PduLoopback.StandardIsAccepted | pdu.c:705-709 | user data packed as section 6.1.2.1.1 of 3GPP TS 23.038 packs it is always accepted and unpacks to the text, with one NUL exactly when its length is 7 modulo 8 |
| PduLoopback.PackedIsAcceptedIff | pdu.c:705-709 | user data from the driver's own packer is accepted exactly when eight does not divide its length, and then unpacks to the text |
| PduBuild.WriteData | pdu.c:592-597 | with room for four characters an octet no coder runs short |
| PduBuild.WriteTail | pdu.c:603-612 | the NUL left on the first character of the user data is taken back |
| PduSubmit.SubmitReads | pdu.c:529-617 | what is written reads, by section 9.2.2.2 of 3GPP TS 23.040, as a message of type 1 with a relative validity, the report asked for and no header, reference 0, the destination with type 0x91, identifier 0, the alphabet of its data, the shortest validity that is long enough, the data length, and data that unpack to the message; the address of the centre in front |
| PduSubmit.StrippedIs | pdu.c:554-558 | a '+' in front of a number is taken off |
| PduBuild.BuildPdu | pdu.c:529-617 | the one test of the room is enough: when it passes only the conversion can fail, every write stays inside the buffer, and the text reads as said, in SCA + 16 + rounded destination + data characters |
| AtRead.Receive | at_read.c:54-105 | as much of what waits as there is room for joins the content; nothing when the read is interrupted; -1 exactly when it fails or there is no room |
| AtRead.ReadResult | at_read.c:107-197 | what is dropped, the frame and the new state, on every content; it ends because each step drops bytes |
| AtRead.ReadBetween | at_read.c:118-149 | between replies, all up to the next line end is dropped |
| AtRead.ReadLine | at_read.c:150-193 | inside a reply, its first bytes decide how its end is found |
| AtReplies.ClassifiedIff | at_response.c:38-87 | a text is classified as a reply exactly when it begins as that reply does, for each of the replies by its own texts, and as unknown exactly when it begins as none does |
| AtReplies.OnlyOne | at_response.c:38-87 | no text begins with two identifiers, so the order of the table does not matter |
| AtResponses.Classify | at_read.c:200-238 | the reply so found, and how many bytes go with it |
| AtIds.IdHasNoNewline | at_response.c:38-87 | no identifier of the table holds a newline |
| AtIds.OrdinaryTaken | at_read.c:215-231 | only the prompt, +CSSI: and +CMGR: take a number of bytes of their own |
| AtFraming.ReplyIsWhole | at_read.c:107-238 | a positive result leaves the framer between replies; framer and classifier together take the frame and its own end mark, all of which has arrived; and whether an identifier matches is settled by the bytes of the frame |
| AtFraming.TakenIsThere | at_read.c:215-233 | the classifier's step never exceeds the bytes that wait |
| AtFraming.MatchIsInside | at_response.c:38-87 | an identifier matches the bytes from the frame on exactly when it matches the frame |
| AtFraming.DecidedThere | at_read.c:107-197 | the frame found is the one the framer finds from where the dropping stopped |
| AtMonitor.TakeReplies | chan_datacard.c:443-449 | the inner loop of the monitor ends, with all replies the bytes hold, and leaves the rest |
| AtMonitor.DrainInOrder | chan_datacard.c:443-449 | the replies are disjoint stretches of the stream, in order, each classified by its own bytes |
| AtStream.EmptyLineReportedIff | at_read.c:163-191 | in front of each of the three identifiers, the empty line is reported as a reply exactly when it has arrived and the identifier behind it has not, that is with 2 to |id| + 1 bytes |
| AtStream.BehindSkipped | at_read.c:163-167 | once the identifier has arrived the empty line is skipped and the line behind it is reported like any other |
| AtStream.InsideListing | at_read.c:173-184 | a list of calls or numbers is reported once its OK has arrived, and leaves that OK to be a line of its own |
| AtStream.MessageEnd | at_read.c:175-184 | the end of a reply of several lines is found once it has arrived, and nothing before it, unless the search errs at a place that straddles the end of the buffer |
| AtStream.MessageMissed | at_read.c:175-184 | and when it errs there, the end is missed or another place taken for it |
| AtStream.StraightIsNotMisled | at_read.c:175-184 | it never errs on a message that does not run past the end of the buffer |
| AtStands.StartGoes | at_read.c:118-127 | the line end in front of a reply is dropped, and the loop goes on behind it |
| AtStands.EmptyLineGoes | at_read.c:163-167 | so is an empty line that is to be skipped |
| AtStands.TokenGoes | at_read.c:150-238 | a reply that has arrived whole is reported, and the loop goes on behind it |
| AtStands.DrainAlong | chan_datacard.c:443-449 | without trouble the loop reports reply after reply as long as they have arrived whole, and leaves the stream where lengths alone say |
| AtStands.DrainTrouble | chan_datacard.c:443-449 | with trouble it reports something else, or waits for the end of a message it will not see |
| AtChunks.SameRepliesIff | chan_datacard.c:436-449 | however a stream of lines, prompts, +CSSI:, stored messages, lists and lines behind an empty one is cut into reads, its replies are reported in order and nothing is left exactly when no read ends between an empty line and the end of the identifier behind it and the search for the end of no message or list errs at the end of the buffer; otherwise nothing read later mends it |
| AtChunks.SameRepliesIffNoneShort | at_read.c:163-191 | without messages and lists this is a condition on the lengths of the reads alone: none ends with between 2 and |id| + 1 bytes of such a line |
| AtChunks.AnyChunking | chan_datacard.c:436-449 | so a stream without such lines and messages comes out whole however it is cut |
| AtEmptyLines.LineIsLost | at_read.c:118-145 | when a read does end there, the empty line is reported as a reply of one character and, whatever is read later, no reply starts among the bytes of the line behind it |
| AtEmptyLines.NoiseIsSkipped | at_read.c:129-145 | a line without a line end in front is no reply, and what follows it is read as if it had not been there |
| AtLoop.Monitor | chan_datacard.c:436-449 | reading and taking replies by turns does what these statements are about; a full ring or a failed read ends it |
| AtEmptyLines.ReadWhole | at_read.c:163 | one such line, read in one piece: the empty line is skipped |
| AtEmptyLines.ReadInTwo | at_read.c:185-191 | the same line, read in two: the empty line is reported and the line lost |
| AtQueue.AtQueue.Add | at_queue.c:97-133 | a task goes behind the head or to the end, and the counters with it |
| AtQueue.AtQueue.Remove | at_queue.c:62-76 | the head task goes, and its outstanding commands from the counter |
| AtQueue.AtQueue.RemoveCmd | at_queue.c:211-231 | the next command, or the next task after the last command or an outcome that was not expected and not ignored |
| AtQueue.AtQueue.RunHead | at_queue.c:239-281 | writes the head command if it has not been, or drops it when it cannot be written |
| AtQueue.AtQueue.Insert | at_queue.c:295-320 | add and run, the run taking place in any case |
| AtQueue.AtQueue.InsertConst | at_queue.c:289-292 | add and run, the run only after the add |
| AtQueue.AtQueue.Response | at_response.c:112-318 | which replies move the queue, by what the head command expects |
| AtQueue.AtQueue.Flush | at_queue.c:337-345 | nothing is left, and the counters say so |
| AtQueue.RelinkTasks | cpvt.c:102-107 | tasks of the call pass to the device and no other task changes |
| AtAnswers.ReplyAnswers | at_response.c:112-318 | what each reply makes of the tasks, by what the head command expects and whether its outcome matters: on to the next command or task, the task removed, or nothing |
| AtAnswers.TextAnswers | at_response.c:38-87 | the same by the text of the reply: OK, the prompt, a stored message, the errors |
| AtAnswers.RunWritesOrDrops | at_queue.c:239-281 | a due command is written, or its task removed unless its outcome does not matter |
| AtAnswers.AddedBehind | at_queue.c:97-133 | a new task is behind the head when urgent and behind all others when not |
| AtAnswers.FlushLeavesNothing | at_queue.c:337-345 | after a flush there are no tasks and the counters are 0 |
| AtQueueRuns.Perform | chan_datacard.c:443-454 | each locked section is a step of the runs below |
| AtQueueRuns.StepKeeps | at_queue.c:97-345 | every step keeps the counters right, the order, and what the history of writes satisfies |
| AtQueueRuns.After | at_queue.c:97-345 | every state a run reaches is sound |
| AtQueueRuns.CountersAndOrder | at_queue.c:62-133 | at_tasks is the number of tasks and at_cmds that of outstanding commands; only the head task has begun; tasks without priority keep their order |
| AtQueueRuns.LinkedShape | at_queue.c:118-121 | adding never displaces the head |
| AtQueueRuns.WritesFormBlocks | at_queue.c:211-281 | the writes of one task have none of another between them and are in the order of its commands, each once; each is preceded by a good end of the wait for every earlier command of the task |
| AtQueueRuns.HeadIsInFlight | at_queue.c:239-320 | while no write fails, a queue that is not empty has its head on the way whenever the lock is free |
| AtTasks.AnsweredFirst | at_queue.c:211-281 | in every run, a command is written only after every earlier command of its task that must be answered was answered as expected |
| AtTasks.RefusedMeansNever | at_queue.c:211-256 | a command that must be answered and ended otherwise, by an error or a failed write, means that nothing behind it in its task is ever written |
| AtTasks.TextAfterPrompt | at_command.c:253-360 | in every run the text of a message is written only after its announcement was answered with the prompt while it was the head command |
| AtTasks.DialAfterHold | at_command.c:511-560 | in every run a call that puts another on hold is dialled only after the modem accepted the hold |
| AtAnswers.ErrorEndsTask | at_queue.c:211-256 | in every run, an error for a head command that has to succeed removes the task, and none of its commands is written from then on |
| AtAnswers.RefusedMessage | at_command.c:253-360 | so a message whose announcement is refused is dropped, and its text is never written |
| AtAnswers.PromptBringsText | at_response.c:1291-1306 | and one whose announcement is answered with the prompt is at its text next |
| Calls.Device.Alloc | cpvt.c:44-78 | a call joins the list and the counters; the first starts the mixer afresh |
| Calls.Device.Free | cpvt.c:81-119 | the call leaves the list, the counters, the tasks and the last-dialled reference |
| Calls.Device.Find | cpvt.c:122-131 | the first call with the number, or that there is none |
| Calls.Device.DisactivateCall | channel.c:250-261 | the stream of an activated call with a channel leaves the mixer |
| Calls.Device.ActivateCall | channel.c:264-326 | the call takes the audio port over from all others and is in the mixer |
| Calls.Device.ChangeState | channel.c:987-1102 | the counters follow the state, and activation, release and freeing follow from it |
| Calls.Device.NewChannel | channel.c:1125-1174 | a call with a channel, or none at all |
| Calls.Device.Hangup | channel.c:329-357 | the call leaves the mixer and loses its channel, and stays in the list |
| CallEffects.ChangeDoes | channel.c:987-1102 | what a change of state makes of the call, of the others and of the mixer: heard calls take the port over and are mixed, held and released ones leave the mixer, released ones are gone with all references, and nothing else changes |
| CallEffects.HangupDoes | channel.c:329-357 | what a hangup makes of them |
| CallEffects.OpenDoes | channel.c:1125-1174 | what a new channel makes of them |
| CallEffects.StartDoes | at_response.c:850-889 | what an incoming call makes of them |
| CallEffects.OrigDoes | at_response.c:622-682 | the call dialled last takes the number the modem gives and is dialing, and no other call changes |
| CallRuns.ActivatedKeeps | channel.c:264-326 | with the audio port open activation keeps one master, and the mixer in agreement |
| CallRuns.DisactivatedKeeps | channel.c:250-261 | so does leaving the mixer |
| CallRuns.FreedKeeps | cpvt.c:81-119 | freeing a call that is out of the mixer leaves no reference to it |
| CallRuns.ChangedKeeps | channel.c:987-1102 | every change of state keeps everything, and a released call is gone |
| CallSteps.StepKeeps | channel.c:329-1102 | every step keeps everything |
| CallSteps.CountersAgree | cpvt.c:63-116 | in every reachable state chan_count is the number of listed calls in each state, in eight bits and so exact below 256; none is released; tasks and last_dialed_cpvt refer to listed calls only |
| CallSteps.MixerAgrees | channel.c:250-357 | in every reachable state a call's stream is in the mixer exactly when it is activated, `attached` is their number, at most one call is master, a master is activated and an activated call has a channel |
| CallVoices.StepVoiced | channel.c:987-1102 | every step keeps the streams of calls with a channel that are active, dialing or alerting in the mixer |
| CallVoices.VoiceIsMixed | channel.c:760-828 | so in every reachable state the stream of a call that channel_write writes to is attached |
| CallEffects.HoldIsQuiet | channel.c:1076-1080 | in every reachable state a call on hold is not activated, has not got the port, and its stream is not in the mixer |
| CallSteps.ActivationIsRightIff | channel.c:297-309 | activation keeps the mixer right exactly when the audio port is open or the stream is there already |
| CallCode.StartPbx | at_response.c:850-889 | an incoming call gets its channel, and is freed when the dialplan refuses it |
| CallCode.ResponseOrig | at_response.c:622-682 | the call dialled last learns its number and is dialing, and nothing is referred to as dialled last |
| CallCode.DisconnectDevice | chan_datacard.c:242-265 | disconnecting leaves no call, no stream, no task and no reference |
| CallCode.Perform | channel.c:329-1174 | the code takes each of the steps that the statements on runs are about |
| Dialing.IsDialPossible2 | chan_datacard.c:799-841 | the answer is a condition on which calls there are: nothing busy, none being set up but the ignored one, active or held ones only with permission and not both kinds |
| Dialing.OrderDoesNotMatter | chan_datacard.c:799-841 | and does not depend on their order |
| Dialing.StepInits | channel.c:149-156 | an admitted request finds no call being set up, and no other step begins one |
| Dialing.AtMostOneSetUp | channel.c:149-156 | so in every reachable state at most one call is being set up |
| RoundRobin.AllMembers | chan_datacard.c:973-996 | in a list of up to 256 devices every member of the group is considered |
| RoundRobin.DeviceList.Collect | chan_datacard.c:973-996 | the members in list order, up to the capacity, the last marked one, and all their marks off |
| RoundRobin.DeviceList.Search | chan_datacard.c:999-1019 | the search from behind the last used member, going round |
| RoundRobin.FirstIsFirst | chan_datacard.c:999-1019 | it stops at the member fewest steps away that can dial, and misses only when none can |
| RoundRobin.FirstRoundIsOne | chan_datacard.c:999-1019 | there is one such member at most |
| RoundRobin.DeviceList.FindDevice | chan_datacard.c:967-1024 | a device exactly when some member can dial; the member found is the one that is first round from the marked one, and no other; it alone is then marked, and no mark stays when none can |
| RoundRobin.Requests | chan_datacard.c:967-1024 | a member that can always dial is found within as many successive requests as the group has members |

## Left out

- iov_write (channel.c:439-486) and all writing to the ports: the model stops at the vectors handed to it, and at
  whether a write of a command succeeds.
- Asterisk channels, manager events, the dialplan applications, configuration, threads, timers, locks and USB
  discovery: each section under a device's lock is one step.
- The field scanners of at_parse.c and the remaining handlers of at_response.c: they add no state that the properties
  here are about.
- The end of at_response_clcc (at_response.c:1018-1036), which the return before it makes unreachable: nothing is
  claimed about calls the modem no longer lists.
- The bits ring, dialing and cwaiting: the code does not keep them in agreement with the calls, so `Dialing` takes
  them as they come.
- Device flags such as connected and initialized, and channels_loop: whether a device can dial is a parameter of
  `RoundRobin`, and the call conditions of is_dial_possible2 are proved by themselves.
- Calls.Device: calls are values in the list, told apart by a number that stands for the pointer, and a queued task or
  the last-dialled reference names a call by that number; so is the stream of a call in the mixer, whose list is
  modelled here apart from `MixBuffer`.
- AtQueue.AtQueue: tasks are values in the list as well; the texts of commands are represented by their lengths, and a
  write that puts only part of a text on the port counts as failed.
- AtQueueRuns.StepKeeps: every enqueued command has a text, as all callers in at_command.c provide.
- SeptetCodec.CharToHexstr7bit: what is stored is stated for 7-bit characters, the only ones get_encoding sends to it;
  the caller leaves room for the octet its own test forgets.
- SeptetCodec.Hexstr7bitToChar: what sscanf makes of a pair that is not two digits is left open.
- The decoding half of the UCS-2 coders and just_copy: they add nothing to the properties.
- PduFields.Cursor.ParseNumber: an international number leaves room for its '+', which the code's own test forgets; its
  caller has 512 characters for at most 255 digits.
- PduParse.ParseTpdu: the same, as room for 257 characters or one character behind the room that is announced.
- PduBuild.BuildPdu: lengths that print as two digits and a validity of at least one minute; at_enque_sms, its only
  caller, replaces 0 by three days.
- PduParse.ParsePdu: the reasons of a refusal stand for the texts of the messages the code returns.
- AtChunks.SameRepliesIff: no reply of the stream is longer than the buffer.
- AtMonitor.TakeReplies: what at_response makes of a reply, and that its failure ends the loop, is left to `AtQueue` and
  `Calls`.
- AudioPath.ChannelWrite: that the stream is attached is asked for; `CallVoices.VoiceIsMixed` says that it is.
- Calls.Device.ChangeState: without the bits ring, dialing and cwaiting, as above.
- CallCode.DisconnectDevice: without the hangup written to the port for each call, the effect of which is the modem's.
