# SconeServer: streams, caches and codecs, verified

SconeServer passes data through chains of streams. A stream gets bytes in pieces of any size, may have only part of what
it writes accepted, and must carry its state from one call to the next. This project models the parts of the server where
that is hardest, in Dafny, and proves what they do over whole runs:

- `Dispatch.dfy`, `DispatchVisits.dfy`, `DispatchAnswers.dfy`, `DispatchProgress.dfy`, `DispatchEnds.dfy`,
  `Descriptor.dfy`: the loop of `sconex/Descriptor.cpp` that sends events along a chain of streams while handlers append
  streams, get removed, ask for closing and cancel it again;
- `ResponseStream.dfy`, `MultipartAnswers.dfy`, `MultipartCapacity.dfy`: the splitter for multipart bodies (section 5.1.1
  of RFC 2046) of `http/ResponseStream.cpp`, what it answers, and how far its buffer goes;
- `Frames.dfy`, `WebSocketWriter.dfy`, `WebSocketReader.dfy`, `WebSocketSession.dfy`, `WebSocket.dfy`: WebSocket framing
  (sections 5.2, 5.3 and 5.5 of RFC 6455) of `http/WebSocket.cpp`;
- `Chunked.dfy`, `MessageStream.dfy`, `Client.dfy`, `ChunkedRoundTrip.dfy`: the chunked coding (section 4.1 of RFC 7230),
  its encoder in `http/MessageStream.cpp`, and its decoder in `http/Client.cpp`, back to back;
- `PartialResponse.dfy`, `Decimal.dfy`: the byte-range filter (section 2.1 of RFC 7233) of `http/PartialResponseStream.cpp`;
- `Buffer.dfy`, `Bytes.dfy`: the byte buffer of `sconex/Buffer.cpp` that all of these share, with its readers and writers;
- `Base64.dfy`: `sconex/Base64.cpp` (section 4 of RFC 4648);
- `Articles.dfy`, `Profile.dfy`: the two article caches of `sconesite/Profile.cpp` against the article table;
- `Heading.dfy`: the heading tree of `sconesite/Heading.cpp` and its four traversals;
- `WildcardLookup.dfy`: the suffix-shortening lookup of `http/HostMapper.cpp`, `http/Host.cpp` and `mime/MIMEModule.cpp`.

Objects of the source are classes here, with the same fields; loops are loops. Each method is proved equal to a function
on the state's value (`Abs()`), and the results about runs are lemmas about these functions. The streams above and below,
the handlers and the file system are not chosen by the model: every read takes a `Fill` (at most so many bytes, with any
answer), every write an amount that is accepted, a descriptor a `World` of arbitrary handlers, a rename or a creation the
answer of the file system; all results hold for all of these, or say for which.

## What turned out false

Where a property fails, the code is modelled as it is, and a lemma says exactly when the property holds:

- `Base64::encode` reads `basis_64[-1]` when the length is a multiple of three (`sconex/Base64.cpp:63`), and writes a
  surplus quadruple that may decode to an extra byte: `Base64.RoundTrip`, `Base64.WholeGroupsGainAByte`.
- A wildcard lookup gives up after 99 keys, so that names with more than 97 dots miss even `*`:
  `WildcardLookup.MostSpecificWins`.
- A first write of the range filter that consumes nothing makes it parse the header again, with the Content-Length it has
  set itself; this spoils every range that does not start at 0, and for one that starts there the total in Content-Range:
  `PartialResponse.RangeIsServed`, `PartialResponse.ParseSpoils`.
- An empty write where a chunk would start is the last chunk of a chunked coding, and a message without any write has no
  valid coding: `Messages.EncoderIsValid`. The page that is sent when a message is closed before anything has been written
  gets lost unless its header and itself are accepted at once: `Messages.UnwrittenIsPage`.
- A stream that is made transparent lets data overtake what is left of its header: `Messages.TransparentOvertakes`.
- A line that is longer than the buffer makes `tokenize` fail for ever: `Clients.OverflowForever`.
- The chunked decoder appends C strings and loses what follows a NUL: `Clients.DecoderReturnsBody`. When a fill ends
  between the CR and LF of a chunk header, the LF is taken for data and the chunk is received shifted by it, which is right
  only for a chunk of LFs: `Clients.ChunkIsReceivedIf`. When a fill ends behind the LF of a line that was torn before
  that, this LF is taken for an empty chunk header, and the body ends there: `Clients.LoneFeedEnds`. A line end that is torn
  behind a chunk's data does no harm by itself.
- A multipart stream can wait for ever, as its buffer is packed down only when it is empty;
  `MultipartCapacity.WedgesExactlyIf` says for which boundaries and part lengths. With boundaries of up to 70 bytes it
  takes twelve empty parts in a row (`MultipartCapacity.ShortBoundary`, `MultipartCapacity.TwelveEmpty`). A body that ends
  right behind its final `--` never comes to its end, and has its last delimiter handed out as data:
  `Multipart.PartsAreHandedOut`, `MultipartCapacity.EndIsReachedIf`, `MultipartCapacity.UnterminatedBodyLeaks`.
- A WebSocket write whose header is accepted in part can lose the end of its data, as `Buffer::resize` does not pack down:
  `WebSocketWriting.WriteKeepsFrames`, `WebSocketWriting.TornHeaderLoses`. A close frame without a code is never answered:
  `WebSocketReading.WaitMeans`. An Underflow can leave 138 bytes buffered, not 130, when a control frame's length is not in
  its shortest form: `WebSocketReading.UnderflowLeavesRoom`, `WebSocketReading.LongHeaderUnderflow`.
- `dispatch` need not end when a stream that is not the last one always has something to be read; otherwise it ends
  whatever the handlers do: `DispatchEnds.EndsExactlyIf`.
- An article name with a slash is accepted by `create_article` and `rename_article`. No href leads to such an article, nor
  to those below it: `Articles.FoundIf`. Creating one leaves a link in the cache that the table does not have; renaming one
  leaves the caches right, until the article is cached the next time: `Profiles.Profile.CreateArticle`,
  `Profiles.Profile.RenameArticle`, `Profiles.CachingKeepsWalksIf`.
- Removing an article that has others below it leaves rows without a parent: `Profiles.Profile.RemoveArticle`.
- `lookup_anchor` differs from `get_tree` for names without letters and digits below the top: `Headings.LookupsAgree`,
  `Headings.AnchorsDisagree`.

Where documentation and code differ, the model follows the code: a Readable event that is answered with Wait is not sent to
subsequent streams according to `sconex/Stream.h:105`, but it is as soon as one of them has something in store
(`sconex/Descriptor.cpp:473-477`).

## Model

| member | source | states |
|---|---|---|
| Descriptors.DispatchIsOrderly | sconex/Descriptor.cpp:324-539 | Over every call of `dispatch` that ends: the streams whose opening is complete stay at the front of the chain; in a call begun Connected or Listening no open, read or write event goes past a stream that is still opening; every Closing event goes to the last stream; a chain that ends up empty is reported with 1. For all handlers in a call begun Connected or Listening, and in one begun closing for those that do not complete their own opening |
| DispatchAnswers.OpenPhaseTells | sconex/Descriptor.cpp:362-486 | Over a whole open, read and write sequence and all handlers, by the log and the answers at the time of each event: the sequence goes along the chain and along what is appended, and stops early exactly at an Error, or at an Opening answered with Wait that no handler of the stream completes; each stream gets Opening exactly if it is not open, and Readable and Writeable exactly while they are passed on and if it has enabled them; exactly the streams that answered with End have left the chain; exactly those are open that were open or were opened; the descriptor is Closing exactly if an event was answered with Close and it is not Closed |
| DispatchAnswers.ClosePhaseTells | sconex/Descriptor.cpp:488-525 | All events of a close sequence are answered with Ok or Close but for the last one, unless the chain is emptied; Wait suspends it, End connects the descriptor again, Error ends it |
| DispatchAnswers.PassTells | sconex/Descriptor.cpp:358-539 | A pass removes the descriptor exactly if an event was answered with Error or no stream is left, and asks for another pass exactly if its last event is a Closing that was answered with End |
| Descriptors.DispatchResult | sconex/Descriptor.cpp:324-539 | A call that ends returns 1 exactly if the descriptor was Closed, has timed out or could not be connected, or if an event was answered with Error or no stream is left |
| Descriptors.CallBegins | sconex/Descriptor.cpp:324-362 | A call that is not stopped before begins with a sequence that sends Opening exactly if the descriptor is Connected or Listening, and Readable and Writeable exactly if they are among the events of the call |
| DispatchAnswers.SettledTells | sconex/Descriptor.cpp:459-484 | The end of one turn: the stream has gone exactly if it answered with End; what is passed on; and when the sequence stops |
| DispatchVisits.OpenTurnVisits | sconex/Descriptor.cpp:365-396 | Opening is sent exactly if the call sends it and it is not complete; the answers decide what is open, removed and waited for |
| DispatchVisits.ReadTurnVisits | sconex/Descriptor.cpp:398-425 | Readable is sent exactly if it is passed on and enabled, and Opening was not answered with End or Error |
| DispatchVisits.WriteTurnVisits | sconex/Descriptor.cpp:427-454 | Writeable is sent exactly if it is passed on and enabled, and no event of the turn was answered with End or Error |
| DispatchEnds.EndsExactlyIf | sconex/Descriptor.cpp:357-536 | When exactly the streams with an id in h always have something to be read: a call that begins Connected or Listening ends for all handlers, answers and events exactly if no stream in h has another one behind it in the chain, or can have one appended behind it |
| DispatchEnds.StoredEnds | sconex/Descriptor.cpp:357-536 | If only the very last stream can have something in store, the passes end, by induction on the streams to be appended and to be opened; and with all streams open and none to be appended, the second pass is the last |
| DispatchEnds.QuietEnds | sconex/Descriptor.cpp:357-536 | If nothing is in store from some time on, the passes end, by induction on the time that is left and then on the same measure |
| DispatchEnds.ProvokedNeverEnds | sconex/Descriptor.cpp:473-477 | Otherwise there are handlers, which open all streams and then answer with Close and cancel the closing in turn, for which no number of passes is enough |
| DispatchEnds.NeverEnds | sconex/Descriptor.cpp:473-477 | With such handlers, a chain of open streams of which one before the last has something in store asks for another pass after every pass |
| DispatchEnds.OpenPhaseKeepsLast | sconex/Descriptor.cpp:362-486 | While streams are appended and erased, only the very last of all ids, present and future, has something in store, if it was so before |
| DispatchProgress.PassProgress | sconex/Descriptor.cpp:357-536 | A pass that asks for another one has sent events and left the descriptor Connected; and when nothing is to be read or written and it did not begin with closing, it leaves fewer streams to be appended, or as many and fewer unopened ones |
| DispatchProgress.AnyPassesKeepOrder | sconex/Descriptor.cpp:357-536 | The same for any number of passes, also when the loop does not end, by induction on that number |
| DispatchProgress.OpenPhaseProgress | sconex/Descriptor.cpp:362-486 | Without read and write events a close request can only come from an Opening answered with Close, and each of these uses up a stream to be opened or appended |
| DispatchProgress.ClosePhaseIsLastInFirstOut | sconex/Descriptor.cpp:488-525 | The Closing events go through the chain from the back, one to each stream; the streams left are a prefix of the chain before, behind which only a handler that suspends or cancels the closing has put new ones; Wait keeps the state, End makes it Connected, otherwise the chain is emptied |
| DispatchProgress.ClosePhaseProgress | sconex/Descriptor.cpp:488-525 | A close sequence opens nothing and only uses up appended streams; a cancelled one has sent an event |
| DispatchProgress.WaitStopsEvents | sconex/Descriptor.cpp:398-454 | After a Writeable event is answered with Wait, no later stream gets it in the pass; and the same for Readable when no stream has anything in store |
| Dispatching.PassKeepsOrder | sconex/Descriptor.cpp:358-536 | One pass keeps the opened streams in front and sends all its events in turn |
| Dispatching.OpenPhaseKeepsOrder | sconex/Descriptor.cpp:362-486 | The open, read and write sequence does so from any stream on, while streams are appended and erased |
| Dispatching.ClosePhaseKeepsOrder | sconex/Descriptor.cpp:488-525 | The close sequence does so, while streams are erased from the back |
| Dispatching.SentKeepsOrder | sconex/Descriptor.cpp:148-155 | Sending one event in turn, with all its handler may do to the chain, keeps the order |
| Descriptors.Descriptor.Dispatch | sconex/Descriptor.cpp:324-539 | The whole method, with its nested loops, does what `Dispatched` says, for every call whose passes end; which these are is what `DispatchEnds.EndsExactlyIf` says |
| Descriptors.Descriptor.OnePass | sconex/Descriptor.cpp:358-536 | One round of the loop is one `Pass` |
| Descriptors.Descriptor.OpenSequence | sconex/Descriptor.cpp:362-486 | The loop over the chain that erases in place is `OpenPhase`; it ends as only finitely many streams are appended |
| Descriptors.Descriptor.CloseSequence | sconex/Descriptor.cpp:488-525 | The reverse loop that erases in place is `ClosePhase` |
| Descriptors.Descriptor.TakeTurn | sconex/Descriptor.cpp:365-484 | One iteration is one `FullTurn` and `Settled` |
| Descriptors.Descriptor.AddStream | sconex/Descriptor.cpp:148-155 | A stream is added, unopened, at the end of the chain, which keeps opened streams in front |
| Multipart.PartsAreHandedOut | http/ResponseStream.cpp:369-470 | For every boundary without CR, every body whose parts do not contain the delimiter, whatever follows the last `--`, every way it arrives and every read size: what is handed out is always a prefix of the parts, section by section; the end is reached only if something follows the last `--`, and then exactly the parts have been handed out. If nothing follows, the last section has the delimiter and the `--` at its end |
| MultipartAnswers.EveryReadAnswers | http/ResponseStream.cpp:369-470 | After every honest run from the start, what the next read answers and how much it hands out is said by the section that is left and by what is buffered: Ok with as many bytes as are wanted and can be told from the delimiter, End without bytes when the delimiter and more than two bytes behind it are all that is left, and Wait without bytes otherwise |
| MultipartAnswers.StagesFollow | http/ResponseStream.cpp:335-366 | Over every honest run: the stages follow one another by End, Closing and the end of headers, and by nothing else; the Closing behind the last delimiter begins the response |
| Multipart.StepKeepsSplitting | http/ResponseStream.cpp:335-366 | Every read, Closing event and end of headers keeps this invariant |
| Multipart.HandedOutOfSection | http/ResponseStream.cpp:399-470 | Inside a section a read hands out the next piece of the section and nothing of a delimiter; it answers End exactly at its end, with the delimiter taken off |
| Multipart.PartRead | http/ResponseStream.cpp:369-470 | In a section, whether it has an end or not, a read hands out the next piece; it answers End exactly at the end, which a last section without an epilogue does not have |
| Multipart.LeakingRead | http/ResponseStream.cpp:433-447 | In a last section without an end, nothing is ever answered with End; once the source has ended, a read hands out all that is left, the delimiter and the `--` included |
| Multipart.BoundaryKnown | http/ResponseStream.cpp:545-575 | The recorded position is the end of the section if the delimiter and more than two bytes behind it are buffered, and -1 otherwise; the recorded kind is Final exactly for the last delimiter |
| Multipart.StartingRead | http/ResponseStream.cpp:399-428 | Nothing is handed out before the first delimiter is complete; then the first section begins |
| Multipart.BoundaryIsPopped | http/ResponseStream.cpp:399-428 | What is taken off at a delimiter is exactly the delimiter with its line end |
| Multipart.MarkStandsFirst | http/ResponseStream.cpp:545-575 | Behind a part that does not contain the delimiter, the first occurrence of the delimiter is where the part ends |
| MultipartCapacity.WedgesExactlyIf | http/ResponseStream.cpp:380-452 | Over all ways a body can arrive and be read from the start: some run leaves the stream waiting for ever exactly if the first boundary fills the buffer, or at some section the buffer behind the wasted bytes holds no more than the delimiter and three bytes, and no more than the part, the delimiter and two bytes |
| MultipartCapacity.EndIsReachedIf | http/ResponseStream.cpp:369-470 | Some run reaches the end of the body, and some begins the response, exactly if something follows the last `--` and no such section is met |
| MultipartCapacity.ShortBoundary | http/ResponseStream.cpp:380-452 | With a boundary of at most 70 bytes, as section 5.1.1 of RFC 2046 has it, no run can wedge the stream, unless twelve parts in a row are empty |
| MultipartCapacity.TwelveEmpty | http/ResponseStream.cpp:380-452 | With a boundary of 70 bytes, twelve empty parts in front of another one can wedge it |
| MultipartCapacity.LongBoundary | http/ResponseStream.cpp:380-452 | A boundary of 507 bytes and more can wedge it in every body; from which length of the first part on is stated for every boundary |
| MultipartCapacity.WedgedIsTight | http/ResponseStream.cpp:387-452 | A wedged stream has met such a boundary or section |
| MultipartCapacity.Drive | http/ResponseStream.cpp:369-470 | Every state on the way can be driven on, by reads and events, to the end of the body, or until it is wedged, or without input in a section without an end |
| MultipartCapacity.StepKeepsPlaced | http/ResponseStream.cpp:427-442 | In a section the wasted bytes are those it began with, or none once something could be handed out; every event keeps this |
| MultipartCapacity.WaitNeedsInput | http/ResponseStream.cpp:387-452 | A read inside a section answers Wait only if more input is needed and there is room for it, or if the stream is wedged |
| MultipartCapacity.WedgedForever | http/ResponseStream.cpp:387-452 | A wedged stream answers Wait whatever the source still has |
| MultipartCapacity.UnterminatedBodyLeaks | http/ResponseStream.cpp:433-447 | For every body that ends right behind its last `--`, some run from the start hands out all sections, with that delimiter as data, if the buffer is large enough for the sections |
| Multipart.ResponseStream.Read | http/ResponseStream.cpp:369-470 | The method does what `ReadBytes` says of the state before |
| Multipart.ResponseStream.FindMimeBoundary | http/ResponseStream.cpp:545-575 | The scan records the first occurrence of the current delimiter, its kind, and the delimiter to look for next |
| Multipart.ResponseStream.ScanBuffer | http/ResponseStream.cpp:550-572 | The loop finds the first occurrence that is far enough from the end of the buffer |
| Multipart.ResponseStream.Closing | http/ResponseStream.cpp:339-366 | A closing section goes on with the next one, a closing body with the response; the answer is always End |
| Multipart.ResponseStream.MimeheaderEnd | http/ResponseStream.cpp:587-598 | The body of a section begins behind its headers |
| WebSocketSessions.SessionIsFaithful | http/WebSocket.cpp:100-204 | Over every run of reads, writes and events, however frames arrive and whatever is accepted: the bytes handed out are a prefix of the unmasked payloads of the data frames, and all in the end; the control frames sent are the replies to those received, in order; the text frames sent carry the writes taken, in order; what is out is whole frames in order exactly if no write lost a byte |
| WebSocketSessions.SessionEnds | http/WebSocket.cpp:100-139 | As many reads as twice the bytes of the frames, that ask for bytes and find some when they need them, hand out all the data and place all the replies |
| WebSocketSessions.ReadProgress | http/WebSocket.cpp:100-139 | Every such read comes nearer to the end, with the bytes to come and buffered as a measure |
| WebSocketSessions.StepKeepsServing | http/WebSocket.cpp:100-204 | Every single read, write and event keeps the invariant behind this |
| WebSocketSessions.ReadTakes | http/WebSocket.cpp:100-139 | One read hands out the next bytes of the payloads, takes at most one frame off the source, places its reply, and does not fail |
| WebSocketReading.ParsedTakes | http/WebSocket.cpp:285-373 | Parsing takes the next frame exactly if its header, or for a control frame all of it, is buffered; it never fails for acceptable frames |
| WebSocketReading.DataReadTakes | http/WebSocket.cpp:108-136 | The bytes handed out of a data frame are the next bytes of its payload, unmasked, although the mask index starts afresh from the position on every call |
| WebSocketReading.DataReadEnds | http/WebSocket.cpp:108-136 | A read of a data frame hands out as many bytes as are wanted, left of the frame, and buffered or to come; its answer is that of the streams below exactly if they had to be asked; the frame is over exactly when all of it is handed out |
| WebSocketReading.ReadUnmasks | http/WebSocket.cpp:108-136 | Byte j handed out is byte j of what was buffered or to come, with the bits of the key flipped from the position on; nothing else is taken |
| WebSocketReading.ReplyInOctets | http/WebSocket.cpp:376-407 | By their first octets: 0x89 is answered with 0x8A and the payload, 0x88 with a code is sent back, and nothing else is answered |
| WebSocketReading.AcceptableInOctets | http/WebSocket.cpp:320-341 | By its first octet: a data frame is text, binary, or goes on with what was begun |
| WebSocketReading.ErrorMeans | http/WebSocket.cpp:285-373 | Parsing fails exactly for a data frame with an unknown opcode or nothing to go on with, a control frame that is not final or longer than 125 bytes, or a complete one with an unknown opcode |
| WebSocketReading.NextHead | http/WebSocket.cpp:285-313 | A header is parsed exactly when all of it is buffered |
| WebSocketReading.UnderflowLeavesRoom | http/WebSocket.cpp:285-371 | An Underflow leaves the state unchanged, with at most 138 bytes buffered, and at most 130 if the length is in its shortest form; so there is always room in the buffer of 140 bytes |
| WebSocketReading.LongHeaderUnderflow | http/WebSocket.cpp:303-308 | 138 bytes are possible for a control frame with a longer length form |
| WebSocketReading.WaitMeans | http/WebSocket.cpp:359-371 | Parsing answers Wait exactly on an Underflow, or for a close frame without a code, which is taken and never answered |
| WebSocketWriting.WriteKeepsFrames | http/WebSocket.cpp:142-176 | One write keeps whole frames on the wire exactly if it loses nothing |
| WebSocketWriting.WriteOut | http/WebSocket.cpp:142-176 | One write sends nothing, or a frame with its data but for the last `Lost` bytes; it reports all or nothing as written |
| WebSocketWriting.BegunOut | http/WebSocket.cpp:152-174 | The same from the point where a frame is begun, for every amount accepted of header and data |
| WebSocketWriting.KeptOut | sconex/Buffer.cpp:203-223 | Resizing without packing down and pushing keeps all but `LeftOut` bytes of what is pushed |
| WebSocketWriting.TornHeaderLoses | http/WebSocket.cpp:167-171 | Fifteen bytes whose header is accepted by half are all reported as written, and the last one is lost |
| WebSocketWriting.ReplyKeepsFrames | http/WebSocket.cpp:376-407 | A control reply goes behind whole frames, never into one, whatever is in the write buffer |
| WebSocketWriting.TextInOctets | http/WebSocket.cpp:416-430 | A text of up to 125 bytes goes out behind 0x81 and its length |
| WebSocketWriting.DrainKeepsFrames | http/WebSocket.cpp:197-204 | A Writeable event keeps whole frames on the wire: what is accepted goes from the buffer to the wire, and the event is disabled exactly when nothing is left |
| WebSocketWriting.WriteKeepsAwake | http/WebSocket.cpp:161-173 | Writeable stays enabled while anything is buffered, but for the header of an empty frame |
| Frames.HeadParses | http/WebSocket.cpp:291-313 | Parsing a header undoes building it, for every opcode, every 64-bit length, masked or not, whatever follows |
| Frames.FrameLayout | http/WebSocket.cpp:410-431 | The octets of every frame as section 5.2 of RFC 6455 lays them out: final bit, opcode, mask bit, shortest length in network order, key, and the payload with the bits of the key flipped |
| Frames.HeadOfAny | http/WebSocket.cpp:285-313 | Every header is parsed by its bits, whatever the reserved bits and however the length is written |
| Frames.BitOfXor | http/WebSocket.cpp:123-129 | A bit of the exclusive or is set exactly if it is set in one of the two bytes |
| Frames.FlippedIsXor | http/WebSocket.cpp:123-129 | Only one byte is another with the bits of the key flipped |
| Frames.MaskedFlips | http/WebSocket.cpp:123-129 | Byte j of a payload is changed in exactly the bits of byte j mod 4 of the key |
| Frames.HeadIsShortest | http/WebSocket.cpp:416-430 | The header built is the shortest of all that are parsed to the same (section 5.2 of RFC 6455) |
| Frames.HeadNeedsAll | http/WebSocket.cpp:291-313 | A header that is not complete is never taken for another one |
| Frames.WireIsUnique | http/WebSocket.cpp:416-430 | A sequence of frames is determined by its bytes |
| Frames.MaskedInPieces | http/WebSocket.cpp:123-129 | Unmasking in pieces, each from its own position, is unmasking at once |
| Frames.MaskedTwice | http/WebSocket.cpp:352-357 | Masking twice with the same key is no change |
| WebSockets.WebSocketStream.Read | http/WebSocket.cpp:100-139 | The method does what `ReadBytes` says, and leaves the rest of the caller's array alone |
| WebSockets.WebSocketStream.ReadFrame | http/WebSocket.cpp:285-373 | The method does what `FrameRead` says |
| WebSockets.WebSocketStream.Write | http/WebSocket.cpp:142-176 | The method does what `Written` says, on a write buffer with head, tail and size |
| WebSockets.WebSocketStream.HandleClose | http/WebSocket.cpp:376-395 | A close frame is sent back with its code and text; without a code nothing happens and the answer is Wait |
| WebSockets.WebSocketStream.HandlePing | http/WebSocket.cpp:398-407 | A pong with the ping's payload is placed in the write buffer |
| WebSockets.WebSocketStream.OnReadable | http/WebSocket.cpp:191-195 | The Readable event reads a frame only between frames |
| WebSockets.WebSocketStream.OnWriteable | http/WebSocket.cpp:197-204 | The Writeable event does what `Drained` says |
| WebSockets.Unmask | http/WebSocket.cpp:123-129 | The loop in place gives what `Masked` says, and leaves the rest of the array alone |
| WebSockets.ParseHeader | http/WebSocket.cpp:291-313 | The sequence of reads gives what `ParseHead` says of the buffered bytes, and stops behind the header |
| WebSockets.BuildFrame | http/WebSocket.cpp:416-430 | The sequence of writes appends `HeadBytes` |
| ChunkedRoundTrip.BodySurvives | http/MessageStream.cpp:173-210 | A body goes through encoder and decoder unchanged, exactly if it has no NUL in it: for every way it is written, accepted and read without tearing a chunk header. The decoder fails only if the stream below it does, and comes to its end in a bounded number of calls that find bytes when they ask for them |
| Messages.MessageIsFramed | http/MessageStream.cpp:319-368 | For every response and every way to write it: the connection persists for versions above 1.0 unless either side asks for a close, and a client is told of the close; a chunked coding is announced exactly for a body of unknown length on a connection that persists, and never with a Content-Length; a receiver that follows section 3.3.3 of RFC 7230 gets the body and leaves what follows, exactly if a chunked body is not empty and no write was empty where a chunk would start |
| Messages.EndIsAnswered | http/MessageStream.cpp:122-134 | The Writeable event is answered with End exactly if the header is out, the message is chunked and some write was empty since; it stays enabled while part of the header is buffered |
| Messages.TransparentOvertakes | http/MessageStream.cpp:257-262 | When a stream is made transparent and the header is accepted in part, for every part: what is written next goes out in front of the rest of the header |
| Messages.TransparentIsPlain | http/MessageStream.cpp:173-210 | Behind the header a transparent stream passes on what it gets |
| Messages.EncoderIsValid | http/MessageStream.cpp:173-210 | For responses with a body of unknown length on a connection that persists, every way to write the body, with Writeable events between, and every acceptance, with partly accepted chunks finished first: the closed message is the header and a valid chunked coding of the body that can be told from what follows, exactly if no write is empty where a chunk would start and there is a write at all |
| Messages.EncoderWritesChunks | http/MessageStream.cpp:106-113 | The coding is a sequence of non-empty chunks that hold the body, and the last chunk |
| Messages.RunKeepsEncoding | http/MessageStream.cpp:173-210 | At any time what is out is whole chunks and part of one more |
| Messages.RunKeepsPlain | http/MessageStream.cpp:173-210 | A message that is not chunked is the header and what has been taken of the body |
| Messages.HeaderKeepsEncoding | http/MessageStream.cpp:371-385 | A header accepted in pieces goes out once, before the body |
| Messages.FinishedOpen | http/MessageStream.cpp:106-113 | Closing behind a complete chunk makes a coding of what was sent that parses back to it |
| Messages.FinishedSpoiled | http/MessageStream.cpp:188-200 | Behind an empty write at the start of a chunk the coding ends early |
| Messages.UnwrittenIsPage | http/MessageStream.cpp:94-113 | When a message is closed to which nothing has been written, and Closing is sent until it is answered with Ok: the header and the page arrive, in the coding that the header announces, exactly if the first Closing gets the header and the page out whole |
| Messages.ClosingHeaderOnly | http/MessageStream.cpp:94-113 | Once the header has been accepted in part only, no further Closing events bring the page back |
| Messages.TornChunk | http/MessageStream.cpp:106-113 | A chunk that is closed before all of it is out does not parse to what it should hold |
| Messages.MessageStream.Write | http/MessageStream.cpp:173-210 | The method does what `Written` says |
| Messages.MessageStream.OnWriteable | http/MessageStream.cpp:122-134 | The method does what `Awoken` says |
| Messages.MessageStream.SetTransparent | http/MessageStream.cpp:257-262 | The method does what `MadeTransparent` says |
| Messages.MessageStream.BuildHeader | http/MessageStream.cpp:319-368 | The method does what `HeaderBuilt` says; what that means is stated by `Messages.MessageIsFramed` |
| Messages.MessageStream.WriteHeader | http/MessageStream.cpp:371-385 | The method does what `HeaderWritten` says |
| Messages.MessageStream.Close | http/MessageStream.cpp:94-120 | The Closing event ends a chunked message with a last chunk and adds nothing to others; before the header is out it writes the header on, or the page of `send_simple_response` |
| Chunked.ParseChunks | http/MessageStream.cpp:186-206 | Chunks and a last chunk parse to what the chunks hold, whatever follows (section 4.1 of RFC 7230) |
| Chunked.SizeLineOfHex | http/MessageStream.cpp:188-195 | The size line written for a chunk parses to its size |
| Chunked.SpelledValue | http/Client.cpp:498-498 | Every spelling of a number in base 16, in either case and with leading zeros, has its value, up to the first other character |
| Chunked.HexSpells | http/MessageStream.cpp:188-195 | The size that is written is such a spelling, without leading zeros |
| Chunked.HexIsDenoted | http/Client.cpp:498-498 | There are no hex digits but these |
| Chunked.ChunkInOctets | http/MessageStream.cpp:186-206 | The octets of a short chunk and of the last one |
| Clients.DecoderReturnsBody | http/Client.cpp:490-534 | However a chunked coding arrives without a chunk header being torn: when the decoder answers End it has taken the chunks and nothing behind the last size line, and has exactly the body, exactly if the body has no NUL; before that it has a prefix of it; and it answers anything but Wait or End only if a fill did |
| Clients.DecoderFinishes | http/Client.cpp:490-534 | More calls than twice the bytes of the coding, which find bytes when they ask for them, bring the decoder to End |
| Clients.RunKeeps | http/Client.cpp:490-534 | Both over a whole run, by induction, with the bytes still to come and the step as a measure |
| Clients.ReceivedKeeps | http/Client.cpp:490-515 | Every call keeps the invariant behind this, and lowers the measure if it finds bytes when it asks for them |
| Clients.HeaderKeeps | http/Client.cpp:494-502 | A chunk header that is not torn is read as the size of the next chunk, or not at all |
| Clients.DataKeeps | http/Client.cpp:518-534 | Chunk data is appended up to its first NUL, and never beyond the chunk |
| Clients.DataAmount | http/Client.cpp:518-534 | A call takes at most 4096 bytes of a chunk, and as many as are left of it, buffered or come |
| Clients.FooterKeeps | http/Client.cpp:508-512 | The line end behind a chunk is read as such, torn or not, or not at all |
| Clients.ChunkIsReceivedIf | sconex/LineBuffer.cpp:43-82 | For every chunk without NUL behind a header whose line is found, and every way its data arrives: it is received rightly exactly if the header was not torn or the chunk is nothing but LFs; otherwise an LF comes in front and its last byte is left |
| Clients.LoneFeedEnds | sconex/LineBuffer.cpp:43-82 | When the LF of a torn line is skipped and no header is found behind it, this LF is taken for an empty header, and the decoder answers End with what it has |
| Clients.FillTears | sconex/StreamTokenizer.cpp:45-117 | For every size there is a fill that tears its header |
| Clients.HeaderLine | http/Client.cpp:494-502 | A header whose line is found gives its size, however it is spelled, and leaves its LF to be skipped if it was torn |
| Clients.SizeIsRead | http/Client.cpp:494-502 | A chunk header gives its size however it is spelled, with or without a chunk extension; a larger one is cut off to its lowest 32 bits |
| Clients.NumberIsRead | http/Client.cpp:498-498 | strtoul with base 16: white space, a sign that negates modulo 2^64, a number however it is spelled, up to the first other character; a larger one becomes the largest |
| Clients.MagnitudeIsRead | http/Client.cpp:498-498 | The prefix 0x is left out when digits follow it |
| Clients.CastKeepsLowBits | http/Client.cpp:498-498 | The cast keeps the lowest 32 bits, as a signed number |
| Clients.TokenizedLine | sconex/StreamTokenizer.cpp:45-117 | When a line comes next, `tokenize` hands out that line and leaves its LF if it has not seen it, or changes nothing that matters |
| Clients.TokenizeAnswers | sconex/StreamTokenizer.cpp:45-117 | For every buffer, also behind an overflow: the line that is found is taken, with Ok, or with Error if the buffer has overflowed before; with none found the answer is Error exactly if the buffer is full |
| Clients.OverflowForever | sconex/StreamTokenizer.cpp:45-82 | A line longer than the buffer is never got over: from then on every call answers Error and changes nothing |
| Clients.NextTokenOfLine | sconex/LineBuffer.cpp:43-82 | What is found of a line, as more and more of it is buffered: nothing, the line without its LF, the whole line |
| Clients.ReadTakesPrefix | sconex/StreamTokenizer.cpp:120-155 | `read` takes bytes off the front of what is pending, and at most as many as asked for |
| Clients.ReadAmount | sconex/StreamTokenizer.cpp:120-155 | As many bytes as are wanted and buffered or come; Ok if all wanted are buffered, and else the answer of the stream below |
| Clients.LineBufferNextToken | sconex/LineBuffer.cpp:43-82 | The loop finds what `NextToken` says |
| Clients.ClientStream.Tokenize | sconex/StreamTokenizer.cpp:45-117 | The method does what `Tokenized` says |
| Clients.ClientStream.Read | sconex/StreamTokenizer.cpp:120-155 | The method does what `ReadBytes` says |
| Clients.ClientStream.ReceiveData | http/Client.cpp:518-534 | The method does what `DataReceived` says |
| Clients.ClientStream.ReceiveBodyChunked | http/Client.cpp:490-515 | The method does what `Received` says |
| PartialResponse.RangeIsServed | http/PartialResponseStream.cpp:57-230 | For every accepted range, every split of the body into writes and every acceptance: once the body is consumed, the window is the one that was accepted exactly if it starts at 0 or the first write was not empty. Then the bytes passed on are those of the window; Content-Range names the positions in the body of the first and the last of them, if there are any and the body reaches that far, and Content-Length is their number; the total is the length that was known, or none, exactly if the first write consumed something or the range is the whole body |
| PartialResponse.RangeIsAnnounced | http/PartialResponseStream.cpp:132-153 | What the response says of a range that is served: 206, the length of the window, its first and last position, and which total |
| PartialResponse.EveryRange | http/PartialResponseStream.cpp:61-157 | Every Range header is either ignored and leaves the response alone, or is answered with a Content-Range, or is refused with 416 and no Content-Range |
| PartialResponse.RunServesRange | http/PartialResponseStream.cpp:57-230 | At any time what has been passed on is the requested window of what has been consumed, unless the range starts behind 0 and the first write is empty |
| PartialResponse.FilteredKeepsWindow | http/PartialResponseStream.cpp:181-227 | One write does so, in all positions of the data relative to the window |
| PartialResponse.ParseAgain | http/PartialResponseStream.cpp:61-157 | Parsing once more after a first write that consumed nothing leaves the window alone exactly if it starts at 0 |
| PartialResponse.ParseSpoils | http/PartialResponseStream.cpp:61-157 | What parsing once more makes of a range that starts behind 0: "a-b" is refused; "-n" becomes the first n bytes; "a-" loses a bytes at its end, or is refused |
| PartialResponse.RunStaysSpoilt | http/PartialResponseStream.cpp:57-230 | No later write brings the window back |
| PartialResponse.EmptyFirstWrite | http/PartialResponseStream.cpp:61-157 | An empty first write consumes nothing and leaves the position at 0, so that the next write parses again |
| PartialResponse.RangeFromTo | http/PartialResponseStream.cpp:88-153 | The range "a-b" is accepted exactly if a is at most b + 1 and b within the body; the response then names a, b and the total, and otherwise it is refused |
| PartialResponse.RangeFrom | http/PartialResponseStream.cpp:88-153 | The range "a-" is accepted exactly if the length is known and at least a; the response then names a, the last position and the total, and otherwise it is refused |
| PartialResponse.RangeLast | http/PartialResponseStream.cpp:88-153 | The range "-n" is accepted exactly if the length is known and at least n; the response then names the last n positions and the total, and otherwise it is refused |
| PartialResponse.RefusedRun | http/PartialResponseStream.cpp:159-172 | Over every run: after a refusal a line feed is passed on and nothing of the body, all that is offered is said to be consumed, and the response has neither Content-Length nor Content-Range |
| PartialResponse.RefusedRange | http/PartialResponseStream.cpp:159-172 | Behind a refusal every write is said to be consumed, and changes nothing |
| PartialResponse.IgnoredRange | http/PartialResponseStream.cpp:66-99 | The first write is answered with End exactly if the request has no range of bytes; from then on the body passes unchanged |
| PartialResponse.WritesAreOk | http/PartialResponseStream.cpp:57-230 | All other writes are answered with Ok |
| PartialResponse.HeaderIsSplit | http/PartialResponseStream.cpp:80-99 | The header is split behind its first "bytes=", at the first "-" that follows |
| PartialResponse.PartialResponseStream.Write | http/PartialResponseStream.cpp:57-230 | The method does what `Written` says |
| PartialResponse.PartialResponseStream.Filter | http/PartialResponseStream.cpp:181-227 | The three cases do what `Filtered` says |
| PartialResponse.PartialResponseStream.Parse | http/PartialResponseStream.cpp:61-157 | Reading the request's header does what `Parsed` says; what the response then says is stated by `PartialResponse.EveryRange` |
| Decimals.AtoiOfDecimal | http/PartialResponseStream.cpp:100-104 | atoi reads back every number that is written in decimal |
| Decimals.AtoiReads | http/PartialResponseStream.cpp:100-104 | atoi reads a decimal number behind white space and a sign, up to the first other character |
| Decimals.AtoiOfNone | http/PartialResponseStream.cpp:100-104 | What does not begin as a number counts as 0 |
| Buffers.Buffer.Push | sconex/Buffer.cpp:80-85 | Bytes written behind the tail become the end of the contents |
| Buffers.Buffer.Pop | sconex/Buffer.cpp:88-96 | The first n bytes are dropped; an emptied buffer is packed down |
| Buffers.Buffer.PopTo | sconex/Buffer.cpp:99-105 | The first bytes, as many as there are, are handed out and dropped |
| Buffers.Buffer.PushFrom | sconex/Buffer.cpp:108-114 | As many bytes as fit behind the tail are appended |
| Buffers.Buffer.InsertFrom | sconex/Buffer.cpp:127-146 | The bytes are put in at position p of the contents, with or without packing down first |
| Buffers.Buffer.Remove | sconex/Buffer.cpp:149-161 | n bytes at position p are taken out of the contents |
| Buffers.Buffer.Compact | sconex/Buffer.cpp:188-200 | The contents stay, and no space in front of them is wasted |
| Buffers.Buffer.Resize | sconex/Buffer.cpp:203-223 | The contents stay; the array is replaced, and packed, exactly if it is too small |
| Buffers.Buffer.EnsureFree | sconex/Buffer.cpp:226-236 | There is room for the bytes required, the contents stay, and the array is replaced exactly if packing down is not enough |
| Buffers.RemoveUndoesInsert | sconex/Buffer.cpp:127-161 | Removing what was inserted gives the old contents |
| Buffers.BufferReader.Next | sconex/Buffer.cpp:301-308 | The next n bytes of the contents, or an Underflow that changes nothing; a reader never passes the contents |
| Buffers.BufferReader.ReadUint | sconex/Buffer.cpp:267-291 | The next k bytes as a number, most significant byte first |
| Buffers.BufferReader.Done | sconex/Buffer.cpp:260-264 | What has been read is dropped from the contents |
| Buffers.BufferWriter.WriteBytes | sconex/Buffer.cpp:355-368 | The bytes go behind what is written already, or an Overflow changes nothing; a writer never passes the free space |
| Buffers.BufferWriter.WriteUint | sconex/Buffer.cpp:331-352 | A number goes there as k bytes, most significant byte first |
| Buffers.BufferWriter.Done | sconex/Buffer.cpp:324-328 | What has been written becomes the end of the contents |
| Buffers.WriteThenRead | sconex/Buffer.cpp:331-352 | A reader gets back every value that a writer put in, for every width that fits |
| Bytes.FromToBigEndian | sconex/Buffer.cpp:267-291 | Reading a number undoes writing it |
| Bytes.ToFromBigEndian | sconex/Buffer.cpp:331-352 | Writing a number that was read gives the same bytes |
| Bytes.BigEndianAt | sconex/Buffer.cpp:331-352 | Byte i of a number in network order is its digit in base 256, highest first |
| Base64.RoundTrip | sconex/Base64.cpp:59-131 | For every byte sequence, with or without line breaks: decode(encode(s)) = s exactly if the length is no multiple of three, or the byte before the table is harmless |
| Base64.WholeGroupsGainAByte | sconex/Base64.cpp:63-66 | With an A before the table, three bytes come back as four |
| Base64.SurplusChunk | sconex/Base64.cpp:63-66 | The surplus quadruple of a whole number of groups decodes to nothing exactly if the byte before the table is harmless |
| Base64.ChunkDigits | sconex/Base64.cpp:42-56 | The characters of a chunk are the base-64 digits of its three bytes (section 4 of RFC 4648) |
| Base64.BasisIsAlphabet | sconex/Base64.cpp:25-26 | Digit i is written as character i of the alphabet of section 4 of RFC 4648 |
| Base64.DigitIsPlace | sconex/Base64.cpp:28-39 | A character is read as its place in the alphabet, and has no digit exactly if it is not in it |
| Base64.PaddedDigits | sconex/Base64.cpp:42-56 | With one or two bytes left the missing bits are 0 and the missing digits padding |
| Base64.QuadOfChunk | sconex/Base64.cpp:108-129 | Decoding the characters of a chunk gives its bytes, as many as the padding says |
| Base64.QuadIsNumber | sconex/Base64.cpp:108-129 | Four digits decode to the three bytes of the 24-bit number they are |
| Base64.MalformedQuad | sconex/Base64.cpp:108-129 | A character outside the alphabet counts as `/`, but in the fourth place it makes the byte 255 |
| Base64.DecodedByFours | sconex/Base64.cpp:88-131 | For every input: white space does not count, the rest is decoded by fours up to the padding, and what is left over is dropped |
| Base64.EncodedInLines | sconex/Base64.cpp:59-85 | With line breaks the same characters are written, with a line feed behind each 72 of them and behind the last one; there are four for each group of three bytes, and four more |
| Base64.Encode | sconex/Base64.cpp:59-85 | The loop writes `Encoded` |
| Base64.Decode | sconex/Base64.cpp:88-131 | The loop writes `Decoded`, for every input |
| Articles.WalkUndoesLink | sconesite/Profile.cpp:147-259 | Walking down the link of an article, as the walk up gives it, leads to the article with no extra |
| Articles.WalkThrough | sconesite/Profile.cpp:211-259 | Walking down a link with anything behind it leads through the article |
| Articles.FoundIf | sconesite/Profile.cpp:211-259 | For every tree of articles, whatever their names: there is an href that leads to an article exactly if neither its name nor one above it has a slash; and then its own link does, and otherwise it does not |
| Articles.WalkThroughClean | sconesite/Profile.cpp:211-259 | Walking down the link of an article without slashes leads through the article, whatever the other names are |
| Articles.WalkStaysClean | sconesite/Profile.cpp:211-259 | A walk down never comes to an article with a slash in its name or above it |
| Articles.HrefIsSplit | sconesite/Profile.cpp:211-259 | For every href the walk down ends at an article whose link, with the extra, is the href, or the href and a final slash when there is no extra |
| Articles.PrefixIsAncestor | sconesite/Profile.cpp:463-475 | The link of A is a prefix of the link of B exactly if A is an ancestor of B or B itself |
| Articles.LinksDiffer | sconesite/Profile.cpp:147-178 | Different articles have different links |
| Articles.WriteKeepsTree | sconesite/Profile.cpp:429-453 | Writing a row that fits keeps the table a tree, and the links of all articles that are not below it |
| Articles.WriteKeepsLooseTree | sconesite/Profile.cpp:429-453 | A row that fits but for a slash in its name keeps a tree, and the links of all articles that are not below it |
| Articles.InsertKeepsTreeIf | sconesite/Profile.cpp:303-312 | A new row keeps the table a tree exactly if its parent is known, its name is not empty and has no slash, and no sibling has it |
| Articles.RemoveKeepsTreeIf | sconesite/Profile.cpp:358-365 | Removing a row keeps the table a tree exactly if nothing is below it, and then keeps all other links |
| Profiles.Profile.LookupId | sconesite/Profile.cpp:130-191 | Lookup by id gives the article exactly if the table has it, with the link the table gives, and both caches keep agreeing with the table |
| Profiles.Profile.LookupHref | sconesite/Profile.cpp:194-262 | Lookup by href gives the article and link of the walk down, cached or not, and both caches keep agreeing; the extra is that of the walk, but on a hit in the link cache, where it is empty and the caller's string is left as it is |
| Profiles.Profile.WalkUp | sconesite/Profile.cpp:147-178 | The loop gives the link and the parent of an article, or nothing exactly if it is unknown |
| Profiles.Profile.WalkDown | sconesite/Profile.cpp:211-259 | The loop ends, and gives what `Walk` says |
| Profiles.Profile.CreateArticle | sconesite/Profile.cpp:265-335 | An article is created exactly if its name is not empty, its parent exists, its link leads to no article, and its directory can be made; afterwards every cached link walks down to its article, and every cached article has the link of the walk up, exactly if the name has no slash |
| Profiles.Profile.RemoveArticle | sconesite/Profile.cpp:338-383 | An article is removed from table and caches; they agree afterwards exactly if nothing was below it |
| Profiles.Profile.RenameArticle | sconesite/Profile.cpp:386-484 | An article gets its new name and parent; all links that begin with its old link, and their articles, leave the caches, and nothing else does; what is left agrees with the two walks, whatever the name; the article can be found afterwards exactly if the new name has no slash |
| Profiles.Profile.PurgeBelow | sconesite/Profile.cpp:463-475 | Every link with the prefix is removed, with its article, in any order of removal |
| Profiles.Profile.UpdateRow | sconesite/Profile.cpp:429-453 | Parent and name are changed only where a new one is given |
| Profiles.Profile.Refresh | sconesite/Profile.cpp:92-115 | Dropping articles from the cache while their links stay keeps the caches in agreement |
| Profiles.RenameKeepsCaches | sconesite/Profile.cpp:455-475 | What a rename leaves in the caches agrees with the walks in the changed table, whatever the new name; the table is as before, with good names only, if that one has no slash |
| Profiles.CachingKeepsWalksIf | sconesite/Profile.cpp:180-191 | Caching an article, and the link of the walk up if that is free, keeps the caches in agreement with the walks exactly if no name up to the root has a slash |
| Profiles.RenamedIsClean | sconesite/Profile.cpp:429-453 | A renamed article is free of slashes up to the root exactly if its new name is |
| Profiles.CreateKeepsWalks | sconesite/Profile.cpp:303-326 | After a row with any name has been entered and cached, the caches agree with the walks exactly if the name has no slash |
| Profiles.PurgeLeaves | sconesite/Profile.cpp:463-475 | After a purge by prefix the caches agree with every tree that gives the articles not below the purged one the same links; the purge is complete as the link of every cached article is cached |
| Profiles.PurgeSpares | sconesite/Profile.cpp:463-475 | A purge takes out nothing but links with the prefix and their articles |
| Profiles.RemoveKeepsCaches | sconesite/Profile.cpp:367-372 | The caches agree after a removal exactly if the article was a leaf |
| Profiles.InsertKeepsCaches | sconesite/Profile.cpp:320-326 | The caches agree after a row that fits has been entered and cached |
| Profiles.NewLink | sconesite/Profile.cpp:284-295 | The link of a new article leads to no article exactly if the parent has no child of that name |
| Headings.BuiltIsOutline | sconesite/Heading.cpp:72-79 | After any adds the preorder of the tree is the order of the adds, children are deeper than their parent, and siblings have levels that do not increase |
| Headings.OutlineIsUnique | sconesite/Heading.cpp:72-79 | Only one forest has this shape and this preorder |
| Headings.IndexIsFound | sconesite/Heading.cpp:82-94 | lookup_index finds exactly the headings there are, and the right one |
| Headings.LookupsAgree | sconesite/Heading.cpp:114-191 | For every heading get_tree gives the section of lookup_section, and the anchor of lookup_anchor exactly if its name has a letter or digit or it is at the top |
| Headings.AnchorsDisagree | sconesite/Heading.cpp:114-131 | A heading "-" below a heading "A" has no anchor for lookup_anchor, and "A_" in get_tree |
| Headings.SectionsDiffer | sconesite/Heading.cpp:134-157 | Different headings have different sections |
| Headings.EmptyEncoded | sconesite/Heading.cpp:97-111 | An anchor is empty exactly if the name has no letter and no digit |
| Headings.AnchorAt | sconesite/Heading.cpp:97-111 | An anchor has the letters and digits of the name in their order, with those raised that stand first or behind another character |
| Headings.AsciiLetters | sconesite/Heading.cpp:97-111 | These are the letters and digits of ASCII, and a small letter is raised to its capital |
| Headings.Heading.Add | sconesite/Heading.cpp:72-79 | The recursion in place builds `Added` |
| Headings.Heading.Clear | sconesite/Heading.cpp:60-69 | All headings below are removed |
| Headings.Heading.LookupIndex | sconesite/Heading.cpp:82-94 | The traversal gives the heading of `IndexLookup`, or null |
| Headings.Heading.LookupAnchor | sconesite/Heading.cpp:114-131 | The traversal gives `AnchorLookup` |
| Headings.Heading.LookupSection | sconesite/Heading.cpp:134-157 | The traversal gives `SectionLookup` |
| Headings.Heading.GetTree | sconesite/Heading.cpp:160-191 | The traversal gives `Entries` |
| Headings.NameEncode | sconesite/Heading.cpp:97-111 | The loop gives `Anchor` |
| WildcardLookup.MostSpecificWins | http/HostMapper.cpp:284-319 | The lookup lets the most specific pattern win in every map exactly if the name has at most 97 dots: the exact name, else `*` and the longest mapped suffix from a dot on, else `*`, else nothing |
| WildcardLookup.LookedIsMostSpecific | http/HostMapper.cpp:288-316 | Whatever is answered without bailing out is what the most specific pattern maps to, for every name, also an empty one or one that begins with `*` |
| WildcardLookup.MostSpecificIsUnique | http/HostMapper.cpp:284-319 | There is only one such answer |
| WildcardLookup.HostMapperLookup | http/HostMapper.cpp:284-319 | The loop gives the common answer, and leaves the result alone when there is none |
| WildcardLookup.HostLookupExtnMap | http/Host.cpp:189-220 | The loop gives the common answer, or null |
| WildcardLookup.MimeModule.Lookup | mime/MIMEModule.cpp:94-120 | The loop gives the common answer, the empty type, or an error when it bails out |
| WildcardLookup.MimeModule.Add | mime/MIMEModule.cpp:123-138 | The type is what a later lookup finds for exactly those names, of up to 97 dots, that the pattern stands for and for which no more specific pattern is mapped; for all others the answer is as before |
| WildcardLookup.MimeModule.Remove | mime/MIMEModule.cpp:141-153 | Only the names for which the pattern was the most specific one get another answer |
| WildcardLookup.AddedIsFound | mime/MIMEModule.cpp:94-138 | For every map and every name of up to 97 dots: a pattern that is added gives the answer if it stands for the name and no more specific one is mapped, and otherwise the answer stays |

## Left out

- Sockets, files, processes, threads and locks, SSL, databases other than the article table, zlib, and all scripting and logging.
- The text of HTTP headers, request and status lines: the encoder takes its header as given bytes, the decoder starts behind the headers, and the handshake of `http/WebSocket.cpp:232-282` is taken as done.
- Integer widths: numbers are unbounded, but for the 32 bits of a write's length, the 64 bits of a frame's length, and the casts of `http/Client.cpp:498`. Overflow in `atoi` and in byte counts is not modelled.
- WebSockets.WebSocketStream.Read: does not model the conversion of the remaining length to `int` (`http/WebSocket.cpp:109`), which goes wrong for frames of 2 GiB and more.
- WebSockets.WebSocketStream.Write: takes lengths that fit 32 bits (`http/WebSocket.cpp:418`); the flag that enables Readable events is not modelled, nor the answers of the streams below to writes.
- The reserved bits of a WebSocket frame, which `read_frame` ignores, are ignored here too; fragments are frames of their own, as in the program.
- Messages.EncoderIsValid: takes runs in which a partly accepted chunk is finished before a new one starts, and closing behind complete chunks; the program has no defence against the others.
- Messages.MessageStream.Close: takes the text of the page and its header as given; does not model size lines and the last chunk when the streams below accept them in part (`http/MessageStream.cpp:189-194`).
- Clients.DecoderReturnsBody: takes chunks below 2 GiB, which the cast to `int` needs; fills that do not tear a chunk header, about which `Clients.ChunkIsReceivedIf` and `Clients.LoneFeedEnds` say the rest; and sources that give bytes when they say Ok and say End only when nothing is left. Line number tracking in `sconex/StreamTokenizer.cpp:92-104` is not modelled.
- Multipart.PartsAreHandedOut: takes bodies without a preamble, as the search string changes with the first delimiter (`http/ResponseStream.cpp:560`), with at least one part, and sources that say End only with their last bytes; the pop of a final delimiter may take one byte more than there is, and the buffer then counts as empty, as it is never read again.
- Multipart.ResponseStream.Read: does not model the path for bodies with a single part (`http/ResponseStream.cpp:371-375`).
- Descriptors.Descriptor.Dispatch: takes calls that end, and handlers who append finitely many streams altogether; handlers append to the end only, as all of the program does, and do not complete an opening in their Closing event. Removal frees a stream, after which `sconex/Descriptor.cpp:481-482` still looks at its flag: the model looks at the flag's last value.
- DispatchAnswers.OpenPhaseTells: takes chains whose streams have ids of their own, as the addresses of streams are.
- PartialResponse.RangeIsAnnounced: takes the response as it is when the body has been consumed; when its header is put together is not modelled, nor is the text of Content-Range.
- DispatchEnds.EndsExactlyIf: takes streams that have something in store always or never, and calls that begin Connected or Listening; `DispatchEnds.QuietEnds` is about streams that fall quiet at some time.
- Descriptors.DispatchIsOrderly: takes, in calls begun while closing, handlers that do not complete their own opening; streams that are still opening can get read and write events there out of turn.
- DispatchProgress.ClosePhaseIsLastInFirstOut: takes handlers that append streams in their Closing event only if they suspend or cancel the closing; otherwise `sconex/Descriptor.cpp:517` erases the new stream and frees the old one.
- Dispatching.SentKeepsOrder: does not model `add_stream_before`, `add_stream_after` and `remove_stream`, which no handler calls, nor `get_event_mask`; the pointers that `link_streams` sets are the order of the chain.
- Profiles.Profile.RenameArticle: takes moves that a file system can make, that is, into no place that is taken and not below the article itself; all database calls succeed. A move of the root directory is left to the answer of the file system and changes no row, as the root has none here.
- Profiles.Profile.PurgeBelow: removes every link with the prefix; the loop of `sconesite/Profile.cpp:463-475` erases the entry its iterator stands on before it goes on.
- Headings.LookupsAgree: takes indices that are all different and not 0, as the program gives them; 0 is the document.
- Base64.Encode: takes the byte before the table as a parameter, as its value is not defined.
- Readers and writers in the machine's own byte order (`sconex/Buffer.cpp:273-291` with `m_net` false), and `push_string`.
- Progress when more is buffered than was asked for: what a stream answers is stated, not when it is asked again.
