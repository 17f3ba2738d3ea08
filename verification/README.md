# A verified model of the RMBT measurement server

The server speaks the RMBT protocol: a client connects, upgrades to a raw or a WebSocket stream,
presents a token, and then asks for timed downloads, counted downloads, uploads and pings. This
project models the server without its sockets and proves what the protocol, the token scheme and
the worker pool promise, for every input of the client, every point at which the transport may
fail, every passing of time and every interleaving of threads.

| file | what it models |
|---|---|
| `Text.dfy`, `Utf8.dfy`, `Base64.dfy`, `Address.dfy`, `Uuid.dfy` | byte strings and the formats the server parses and prints |
| `Clocks.dfy` | the passing of time: `Instant`, the wall clock in whole seconds, `sleep` |
| `Token.dfy`, `TokenTheorems.dfy`, `TokenVerdicts.dfy` | issuing and checking tokens; round trip, agreement of both checkers, time reconstruction, key order; what each verdict means for every token |
| `IpCheck.dfy` | the signed answer of `/ip` |
| `Handshake.dfy` | the loop that reads the HTTP header |
| `Streams.dfy`, `StreamTheorems.dfy` | both variants of a stream: lines, blocks, framing |
| `Transfer.dfy`, `Refinement.dfy` | chunk streams: sending, receiving, progress reports; when both variants of a stream receive an upload alike |
| `Session.dfy`, `Commands.dfy` | the command loop as exchanges, and its methods |
| `RequestTheorems.dfy` | what each line of a client means: the command, when it is refused, and what is answered |
| `SessionTheorems.dfy`, `ClockTheorems.dfy`, `WireTheorems.dfy` | what every session guarantees however it ends: sizes and accounting, its times, its form on the wire and what a peer reads back |
| `Greeting.dfy`, `Grammar.dfy`, `Connection.dfy` | the token gate, the grammar of the whole output, one connection from greeting to end |
| `Pool.dfy`, `PoolTheorems.dfy`, `PoolService.dfy` | the accept loop and the workers as interleaved steps; when a connection is dropped, and that it is served otherwise |
| `Json.dfy` | the builder of log events and a parser that undoes it |

How it fits together:

- A `Stream` holds everything the peer will still send, how many writes will still succeed, the
  data, the message and the time of every write, and the time of every read. The handlers in
  `Commands` work on it as the program does. Each is proved to write the answer of one *exchange*, a
  value that says what was transferred and when, and to leave the input where that exchange ends.
- A failure is determined as well. `Beginnings` are all the ways in which the answer to a command can
  break off: which write failed, or which read and with what error, and whether the transfer was
  complete by then. A handler that fails is proved to have ended in one of them, for the command that
  was read.
- `RunCommands` yields a `Story`: the exchanges that were completed, as a chain, and the one that broke
  off, if one did. The theorems about sessions are about all stories, so they hold for the many
  sessions that end with a disconnect as for those that end with QUIT.
- Every handler is also proved by the clock. A `Clocking` holds the recorded times of its writes and
  reads and the reading that its own times count from; `Clocked` ties each time in an exchange to
  them from both sides, also when the exchange breaks off. `RunCommands` joins these to a record of
  the whole session, and `ClockTheorems` says what follows for the client.
- The functions that the methods are proved against are themselves determined from outside: a verdict by
  what the control server issues, a request by the fields of its line, a refusal by the numerals, the
  bytes on the wire by what a peer reads back, a dropped connection by the queue of its worker.
- `Grammar` reads the output one write at a time, as a client would. It knows nothing of exchanges:
  it accepts a write or not, remembers the chunk size of a download and the last report of an
  upload, and demands a millisecond and more bytes between reports.
- `HandleConnection` states the end-to-end result for a whole connection: how it ends and why, the
  grammar, the token gate, all counters, and the messages on the wire.
- HMAC is an arbitrary function of key and message with a fixed digest length; that loaded keys do
  not collide is a hypothesis wherever it is needed, and key order is treated without it.
- The pool is a step function on states. Its methods are proved against that function, its theorems
  are about every schedule of steps.

The model keeps the edge cases of the code. A header of 8193 bytes is accepted, because the
terminator is tested before the length. `validate_v2` gives up at the first key whose time hash
matches, even if the address hash then fails. A size argument takes effect even if the command is
then refused for its seconds or its count. A WebSocket block drops what is left of its last frame.

## Model

| member | source | states |
|---|---|---|
| Connection.HandleConnection | src/server/mod.rs:348-372 | for any client and any failure: either the greeting ended as `Greeting.Greeted` says, or the client was admitted and the story of its commands follows its opening line, and in both cases the ending names the read or write that failed; the output is a prefix of the protocol grammar, even with the write that failed, and once the client is admitted it is a complete word exactly if the client quits; nothing but version, prompt and a refusal is written before the client's token is accepted, was made for it with a loaded key, and its start time has come; behind the greeting every read and write has its time on record, and the times reported are those of the clock; the times accounted fit into the duration of the connection; commands, pings and uploaded bytes are exactly those of the story, and the bytes written in chunks are those accounted as downloaded and those of a send loop cut off by a failed write; over WebSocket every chunk is a binary and every line a text message with unchanged bytes; on the raw transport every write goes out as it is; in both variants the bytes that go out are those written, and a peer that reads a block for each chunk and a line for everything else gets exactly the writes |
| Connection.Greet | src/server/mod.rs:348-353 | the greeting ends as decided for the opening line unless version or prompt could not be written, writes no chunk, keeps to the grammar, and opens the gate only for an accepted token whose time has come |
| Connection.GreetingTravels | src/stream/mod.rs:82-96 | over WebSocket all greeting lines are text messages with unchanged bytes |
| Greeting.RunGreeting | src/protocol/greeting.rs:37-114 | unless version or prompt cannot be written the first non-blank line decides, and unless a write fails the decision is announced in full and the result tells it; if there is no such line the result is the read error, behind the prompt; the gate is set between prompt and OK |
| Greeting.ReadAndDecide | src/protocol/greeting.rs:51-108 | fails exactly if reading the opening line does; otherwise the decision is the one for that line at clock readings taken during the call, after the sleep |
| Greeting.CheckToken | src/protocol/greeting.rs:75-108 | the verdict on the token, and after an acceptance the start time has been reached |
| Greeting.ReadFirstLine | src/protocol/greeting.rs:49-54 | returns the first line that is not blank and consumes nothing behind it |
| Greeting.Announce | src/protocol/greeting.rs:59-65 | OK and the chunk sizes, BYE, or ERR, as the decision demands |
| Greeting.AcceptedStart | src/protocol/token.rs:280-312 | an accepted token starts within the window, and the sleep is exactly the time until then, at most 20 s |
| Greeting.BlankLinesAreSkipped | src/protocol/greeting.rs:49-54 | any number of blank lines does not change which line opens the session |
| Greeting.OpeningLineReadBack | src/protocol/greeting.rs:49-54 | behind blank lines the client's opening line is read unchanged, and the rest is left unread |
| Greeting.TokenIsAnswered | src/protocol/greeting.rs:58-114 | a line `TOKEN x`, with any white space around x, is answered OK and the three chunk sizes if tokens are not checked or x is accepted, and otherwise ERR; the result tells which |
| Greeting.OtherIsAnswered | src/protocol/greeting.rs:58-67 | any other line is answered BYE if it starts with QUIT, behind any white space, and otherwise ERR; the result tells which |
| Greeting.IdentityOfIssued | src/protocol/greeting.rs:71-75 | what is remembered of an issued token is its UUID, v2 or v1 by its marker, and the key |
| Grammar.TranscriptFollows | src/protocol/commands.rs:17-58 | the transcript of every run is a word of the grammar, which ends with BYE exactly if the run was closed |
| Grammar.ReplyFollows | src/protocol/commands.rs:38-56 | each exchange answers with ERR, chunks and TIME or ERR, OK with reports and TIME, PONG and TIME or ERR, or BYE |
| Grammar.UploadFollows | src/protocol/commands.rs:198-228 | an upload answers OK, reports at least a millisecond apart with growing byte counts, then a TIME not before the last of them |
| Grammar.FollowChunks | src/protocol/commands.rs:99-106 | a download is chunks of one size of which the last one, and only it, ends in 0xFF |
| Grammar.StoryIsRight | src/protocol/commands.rs:17-58 | whatever the client does and wherever the transport fails, the output of a session is a beginning of a word, even with the write that failed, and a whole one exactly if QUIT was answered |
| Grammar.CutRunIsRight | src/protocol/commands.rs:17-58 | an interrupted run has written a beginning of a word, and never a whole one |
| Grammar.ClosedRunIsRight | src/protocol/commands.rs:48-52 | a run closed by QUIT has written a whole word |
| Grammar.GreetingFollows | src/protocol/greeting.rs:46-113 | the greeting leads to the command loop if the client is admitted and to the end otherwise |
| Commands.RunCommands | src/protocol/commands.rs:17-58 | the session tells a story: the log is the transcript of a valid run, which closes exactly on success, and after a failure a beginning of the answer to the command read last, broken off by the write or read that the error names; the counters are the accounting of the story; the record has the time of every write and read of the session, turn by turn without a gap, and every time in an exchange, broken off or not, is tied to these |
| Commands.ServeCommand | src/protocol/commands.rs:27-56 | one turn: the offer and the answer of one exchange that serves the next line, with its accounting, or one of the ways in which that turn can break off; offer, request and answer follow each other by the clock, each write and read of a completed turn has its time, and the times in the exchange are those of the clock |
| Commands.ReadAndAnswer | src/protocol/commands.rs:30-56 | the line read decides the exchange; a failure is that of the read, or a beginning of the answer to that line; the times in the exchange are those of the clock after that read; what each line means is `RequestTheorems.TurnMeans` |
| Commands.Dispatch | src/protocol/commands.rs:40-56 | each test command is counted before its handler runs, also if that fails, and QUIT and unknown commands are not; the answer is a completion or a beginning for the command; its times are those of the clock during the call; `RequestTheorems.LeadsTo` says which answer each command has |
| Commands.AnswerPlain | src/protocol/commands.rs:48-55 | BYE for QUIT and ERR for an unknown command, neither of which is counted |
| Commands.HandleGetTime | src/protocol/commands.rs:67-119 | the size is updated before the seconds are looked at; on success the exchange completes the request, on failure it is a beginning of its answer, accounted exactly if all chunks were written; a chunk is the last one exactly if the time was up when it started, also if it could not be written, and all times are tied to those of the writes and reads; it is refused exactly if an argument is bad (`RequestTheorems.AnswerIsRight`) |
| Commands.AnswerTimed | src/protocol/commands.rs:91-119 | a timed download as an exchange: accounted exactly if all chunks were written, whether or not the client acknowledges and whatever fails then; each chunk has a clock reading after the write before it and before its own; the send time lies between the last chunk and the acknowledgement, the reported time behind it |
| Commands.DownloadTimed | src/protocol/commands.rs:91-119 | chunks, then accounting, then the acknowledgement; a failure is that of a chunk, with nothing accounted, or of what follows, with the whole download accounted; the clock readings of the chunks and all times are tied to the recorded writes and reads in each of these cases |
| Commands.SendTimed | src/protocol/commands.rs:99-106 | writes a download whose last chunk is the first one started when the time was up, and up to a failed write every chunk is terminal exactly if the time was up when it started; each start lies between the writes of two chunks; the byte count is what was written |
| Commands.SendUntil | src/protocol/commands.rs:99-106 | the loop: every chunk but the last was started before the time was up, by a clock reading between two recorded writes, and the last one is terminal exactly if the time was up at its start, also if its write failed |
| Commands.HandleGetChunks | src/protocol/commands.rs:129-171 | as for GETTIME, with exactly the requested number of chunks; send time and answer are tied to the recorded writes and reads; it is refused exactly if an argument is bad (`RequestTheorems.AnswerIsRight`) |
| Commands.SendChunks | src/protocol/commands.rs:152-159 | writes exactly the chunks of a counted download, or a beginning of them |
| Commands.AnswerCounted | src/protocol/commands.rs:152-171 | a counted download as an exchange: accounted exactly if all chunks were written, with the same bounds on both times |
| Commands.DownloadCounted | src/protocol/commands.rs:152-171 | chunks, then accounting, then the acknowledgement, with the same account of failures |
| Commands.FinishDownload | src/protocol/commands.rs:107-119 | the send time is accounted first and is no larger than the time then reported |
| Commands.AwaitAck | src/protocol/commands.rs:110-119 | TIME if the next line is OK, ERR if it is another; the time was taken after the acknowledgement was heard and before the report was written; a failure is that of the read, or of the write that the line read demands |
| Commands.HandlePut | src/protocol/commands.rs:181-229 | OK, reports and TIME of the upload that the input holds at the negotiated size, or a beginning of that answer; accounted exactly if the whole chunk stream was received and reported; the time of each chunk lies between its read and the next one; it is refused exactly if an argument is bad (`RequestTheorems.AnswerIsRight`) |
| Commands.Upload | src/protocol/commands.rs:198-229 | the accepted upload from OK to TIME; accounted exactly once it is complete, even if the last write then fails; all times count from a reading between OK and the first chunk, and the total reaches to behind the last one; it breaks off at the one due report that cannot be written, or, with all due reports written, because the input holds no whole chunk stream, with the error of that read |
| Commands.ReceiveUpload | src/protocol/commands.rs:200-223 | consumes exactly one chunk stream and reports it; the byte count is size times chunks; each chunk is stamped after its read and before the next; it fails only with a due report that cannot be written, and then only that one is missing, or at an input without a whole chunk stream, and then all due reports are written |
| Commands.ReportProgress | src/protocol/commands.rs:210-218 | a report is sent if none was or the last one is a millisecond old; the marker for "none" is never subtracted |
| Commands.ReportsSnoc | src/protocol/commands.rs:210-218 | the loop variable and the written lines keep up with the report list of the chunks so far |
| Commands.HandlePing | src/protocol/commands.rs:237-252 | PONG, then TIME or ERR; a ping is accounted exactly if its acknowledgement was read and is OK, even if TIME cannot be written; its time counts from before PONG and reaches to behind the acknowledgement |
| Commands.ConnStats.AddPing | src/events.rs:77-85 | the whole new state of the counters after a ping |
| Commands.ConnStats.AddDownload | src/events.rs:67-70 | the whole new state after a download |
| Commands.ConnStats.AddUpload | src/events.rs:72-75 | the whole new state after an upload |
| RequestTheorems.TurnMeans | src/protocol/commands.rs:30-56 | a completed turn, in terms of the line alone: its word and arguments decide which test it is, whether it is refused, and at which size; what is written is ERR, BYE, PONG and an end, chunks of one size with the last and only the last ending in 0xFF and an end, or OK and a TIME; the end is TIME exactly if the next line is OK; the session closes exactly on QUIT |
| RequestTheorems.CutTurnMeans | src/protocol/commands.rs:30-56 | an interrupted turn whose line was read has begun the answer to that line |
| RequestTheorems.QuitEnds | src/protocol/commands.rs:48-52 | a session ends without a failure exactly if its last line was QUIT, and no line before it was |
| RequestTheorems.RequestReadBack | src/protocol/commands.rs:30-40 | round trip: every command with its arguments, with and without the optional ones and with any white space around, is read as that command with those arguments |
| RequestTheorems.RequestOfLine | src/protocol/commands.rs:35-55 | conversely every line is the command of its first field, with its second and third field as arguments, and unknown exactly if its first field is none of the six words |
| RequestTheorems.AcceptOffers | src/protocol/commands.rs:11 | the line before every command offers exactly these six words |
| RequestTheorems.AnswerIsRight | src/protocol/commands.rs:77-89 | a GETTIME, GETCHUNKS or PUT is refused if and only if its size argument is not empty and no numeral from 4096 to 4194304, or its seconds (count) is no numeral from 1 to 30 (300000); otherwise it is a transfer at the size it asks for, or else the one in force, with that count |
| RequestTheorems.BeginningIsRight | src/protocol/commands.rs:77-89 | the same for an answer that broke off |
| RequestTheorems.SecondsAreKept | src/protocol/commands.rs:86-91 | a completed GETTIME was timed by the number in its argument |
| RequestTheorems.AnswerIsWritten | src/protocol/commands.rs:107-119 | what each exchange writes, and that it ends with TIME exactly if the next line is OK |
| Text.TrimExactly | src/protocol/commands.rs:31 | trimming removes exactly the white space at both ends |
| Session.ChunkSizesAccepted | src/protocol/commands.rs:258-264 | a size is accepted if and only if it is a decimal numeral, with or without a plus sign, from 4096 to 4194304 |
| Session.PositivesAccepted | src/protocol/commands.rs:86-89 | a count or a number of seconds is accepted if and only if it is a decimal numeral, with or without a plus sign, from 1 to its maximum |
| Session.DownloadedBytes | src/protocol/commands.rs:99-119 | a whole download writes exactly the chunk bytes it is accounted with |
| SessionTheorems.SizeIsLastAsked | src/protocol/commands.rs:24-45 | after any commands the chunk size is the last valid size argument, also of a refused command, or 4096, and within the limits |
| SessionTheorems.SizeOfStep | src/protocol/commands.rs:77-89 | one exchange changes the size only to the valid size asked for, and transfers with it |
| SessionTheorems.StoryConserves | src/protocol/commands.rs:41-52 | over every session, however it ends: uploaded bytes are those of the chunks of completed uploads, and the bytes written in chunks are those accounted as downloaded plus those of a send loop that a failed write cut off |
| SessionTheorems.InterruptionIsSane | src/protocol/commands.rs:27-56 | an interrupted turn: accounted as a transfer only if it was a test whose transfer was complete, and for a download exactly if all its chunks were written |
| SessionTheorems.RunConservesBytes | src/events.rs:67-75 | the same for the completed exchanges alone, where nothing is left over |
| SessionTheorems.CountersCount | src/events.rs:77-85 | for the exchanges as they are accounted, the interrupted one included: commands are the tests among them, pings the acknowledged ones, and the extremes are theirs |
| SessionTheorems.PingExtremes | src/events.rs:77-85 | once there is a ping the extremes are attained by pings, and in order |
| ClockTheorems.SessionStopsOnTime | src/protocol/commands.rs:91-119 | in every session, however it ends, each completed GETTIME stops on time by the recorded times: all chunks but the last two were written before the time was up, the last one after, and no time told is shorter than the time asked for |
| ClockTheorems.CutGetTimeStopsOnTime | src/protocol/commands.rs:99-106 | a GETTIME that breaks off in its chunks has not run on either: all chunks written but the last one were written before the time was up |
| ClockTheorems.SessionReportsArrivals | src/protocol/commands.rs:210-218 | in every session each chunk of a completed PUT arrives less than a millisecond after the time of a report that was taken before the next chunk was read |
| ClockTheorems.ArrivalsAreReported | src/protocol/commands.rs:210-218 | the same for each chunk of an upload that broke off |
| ClockTheorems.ReportTellsReads | src/protocol/commands.rs:207-217 | a report tells exactly the bytes of the chunks that were read by the time it tells |
| ClockTheorems.TurnsTellTime | src/protocol/commands.rs:26-57 | every time in a session is measured: send times cover the writes of all chunks, answers what passed from the first write until the acknowledgement was heard, uploads the reads of all chunks, none is longer than its exchange, and the exchanges follow each other |
| ClockTheorems.TransfersFit | src/events.rs:67-85 | over every session, however it ends, the times accounted to downloads, uploads and pings together are no longer than the session |
| ClockTheorems.TimesAreSums | src/events.rs:67-75 | both time counters are the sums of the send times of the downloads and of the times of the uploads that are accounted |
| WireTheorems.StoryTravels | src/stream/mod.rs:79-96 | everything a session writes over WebSocket, broken off or not, travels with unchanged bytes, chunks as binary and lines as text messages, as long as the clock fits a `u128` and the client sends fewer than 2^64 bytes |
| WireTheorems.TranscriptClear | src/stream/mod.rs:79-96 | a session writes nothing but chunks of at least 4096 bytes and short ASCII lines with their only line feed at the end, for exchanges whose numbers fit |
| WireTheorems.RawIsPlain | src/stream/mod.rs:82-85 | on the raw transport every write goes out as it is, whatever it is |
| WireTheorems.BytesAreSent | src/stream/mod.rs:82-96 | no byte is lost or added: the bytes that go out are those that were written, in both variants |
| WireTheorems.PeerReadsLog | src/stream/mod.rs:33-133 | and a peer that reads a block for each chunk and a line for everything else gets back exactly the writes, in both variants |
| WireTheorems.ReceiveWeight | src/protocol/commands.rs:206-208 | the bytes counted in an upload were sent by the client |
| Transfer.DownloadIsReceived | src/protocol/commands.rs:206-223 | duality: the receive loop fed with a download of the same chunk size, and any bytes behind it, takes exactly its chunks and leaves the rest |
| Transfer.ReceiveChunkStream | src/protocol/commands.rs:206-223 | the same for any chunk stream |
| Transfer.ReceiveChunkFrames | src/stream/mod.rs:106-133 | the same over WebSocket, with a binary frame for each chunk |
| Transfer.ReceivedIsChunkStream | src/protocol/commands.rs:206-223 | conversely, whatever is received completely is a chunk stream and is what the client had sent |
| Transfer.UploadEndsAtMarker | src/protocol/commands.rs:206-222 | a received upload ends with the first chunk whose last byte is 0xFF, and with no other |
| Refinement.WebSocketRefinesRaw | src/stream/mod.rs:106-133 | an upload in which no data frame straddles a chunk boundary, up to the terminal chunk, is received over WebSocket as over the raw transport: the same chunks and the same end position |
| Refinement.RefinesRawIffAligned | src/stream/mod.rs:106-133 | the exact condition: a received upload is what the raw transport would have received, to the end position, if and only if it is so aligned |
| Refinement.AlignedLosesNothing | src/stream/mod.rs:113-122 | an upload that is not aligned loses bytes: what was received and what is left is less than what arrived |
| Refinement.UnalignedUpload | src/stream/mod.rs:118-122 | and there are such uploads: bytes behind the last chunk in its frame are lost, while the raw transport leaves them to be read |
| Refinement.LaterFramesAreFree | src/stream/mod.rs:106-133 | frames of later commands, whatever their sizes, change neither an upload nor its alignment |
| Refinement.GatherAligned | src/stream/mod.rs:106-133 | one block is read as on raw bytes, and it leaves what the raw block leaves if and only if its frames end with it |
| Refinement.AlignedIsExactRun | src/stream/mod.rs:106-133 | that is, if and only if the shortest run of frames that carries the block carries exactly the block |
| Transfer.ReportsTellChunks | src/protocol/commands.rs:210-218 | every report tells time and bytes of one of the chunks, the first one those of the first chunk |
| Transfer.ReportsIncrease | src/protocol/commands.rs:210-218 | byte counts strictly increase, up to the bytes received |
| Transfer.ReportsSpaced | src/protocol/commands.rs:210-218 | consecutive reports are at least 1,000,000 ns apart |
| Transfer.ReportsTimely | src/protocol/commands.rs:210-218 | for any times of the chunks in order, no chunk comes a millisecond or more after the latest report without being reported; `ClockTheorems` ties the times to the reads |
| Transfer.ReportsBounded | src/protocol/commands.rs:204-227 | there are at most 1 + total / 1,000,000 reports, none later than the total time |
| Transfer.ReportLineInjective | src/protocol/commands.rs:215-216 | a report line tells its time and byte count |
| Transfer.LinesUnambiguous | src/protocol/commands.rs:225-227 | the final line cannot be mistaken for a report |
| Streams.Stream.ReadLine | src/stream/mod.rs:33-77 | the next line of either variant, or the error, and the exact rest |
| Streams.Stream.ReadFrameLine | src/stream/mod.rs:57-75 | the loop over frames skips control frames |
| Streams.Stream.ReadExact | src/stream/mod.rs:106-133 | fills the whole buffer from either variant, or fails, and leaves the exact rest |
| Streams.Stream.ReadFrames | src/stream/mod.rs:109-131 | the loop with its fill counter gathers the frames in order and drops what is left of the last one |
| Streams.Stream.WriteAll | src/stream/mod.rs:82-96 | all of the data goes out as one message, or the write fails with a part of it; what that message carries is `WireTheorems.BytesAreSent` |
| StreamTheorems.ShortestRunGathers | src/stream/mod.rs:106-133 | a block is the prefix of the concatenated payloads of the shortest sufficient run of frames |
| StreamTheorems.GatherFindsRun | src/stream/mod.rs:106-133 | and whenever a block is read there is such a run |
| StreamTheorems.LineReadBack | src/stream/mod.rs:36-56 | a line without line feed is read back unchanged if and only if it is UTF-8, shorter than 1024 bytes and does not end in a carriage return |
| StreamTheorems.LinesReadBack | src/stream/mod.rs:36-56 | successive reads return exactly the written lines and leave what follows |
| StreamTheorems.EndedLine | src/stream/mod.rs:36-56 | a line ended among the first 1024 bytes, by a line feed alone or behind a carriage return, is read without it, or refused exactly if it is not UTF-8 |
| StreamTheorems.LastLine | src/stream/mod.rs:36-56 | a line that the end of the stream cuts off is a line too, unless it is empty (closed) or the transport failed |
| StreamTheorems.LongLine | src/stream/mod.rs:48-51 | a line without line feed in its first 1024 bytes is refused if more bytes follow |
| StreamTheorems.FramedLineReadBack | src/stream/mod.rs:57-75 | a line in a frame of either kind is read back unchanged, behind any control frames |
| StreamTheorems.NoFrameLine | src/stream/mod.rs:60-75 | no line is read over WebSocket because the peer closed, or because the transport failed, and the error tells which |
| StreamTheorems.FrameLineExactly | src/stream/mod.rs:63 | a text frame loses all line feeds and then all carriage returns at its end |
| StreamTheorems.BinaryLineExactly | src/stream/mod.rs:64-69 | a binary frame loses at most one of each, behind its lossy decoding |
| StreamTheorems.GatherFails | src/stream/mod.rs:125-128 | a block that cannot be read over WebSocket: closed if a close frame is left, failed otherwise |
| StreamTheorems.RawBlockExactly | src/stream/mod.rs:106-108 | on raw bytes a block is read exactly if it has arrived |
| Utf8.ValidExactly | src/stream/mod.rs:54-55 | well-formed text is exactly what some Unicode characters are encoded to |
| Utf8.LossyReplaces | src/stream/mod.rs:65 | lossy decoding replaces the longest beginning of a character, or else one byte, by U+FFFD wherever no character starts |
| Utf8.LossyKeeps | src/stream/mod.rs:65 | and keeps every whole character |
| StreamTheorems.MessagesCarryTheData | src/stream/mod.rs:79-96 | ASCII lines become text and data of chunk size binary messages, with the same bytes |
| Handshake.ReadHeader | src/stream/websocket_upgrade.rs:46-57 | consumes exactly the shortest prefix that ends in the blank line, and succeeds if and only if that has at most 8193 bytes |
| Handshake.HeaderThenLines | src/stream/websocket_upgrade.rs:46-57 | no byte is lost between header and protocol: the lines behind the header are read back |
| Token.ValidateToken | src/protocol/token.rs:55-70 | the verdict by the clock readings of the call, which lie in it and are in order; what each verdict means is `TokenVerdicts.VerdictExactly` |
| Token.ValidateV2 | src/protocol/token.rs:130-196 | the clock is read once for the reconstruction and once for the window; what each verdict means is `TokenVerdicts.VerdictV2Exactly` |
| Token.SearchV2 | src/protocol/token.rs:161-182 | the first key that signs the time decides alone, even if the address then fails |
| TokenVerdicts.VerdictExactly | src/protocol/token.rs:55-196 | every verdict on every token, in terms of what the control server issues with the loaded keys: malformed exactly if it is no base64 of 16 bytes (no UUID, time and rest); InvalidHmac exactly if no loaded key issued a token for its time (made it of its message); otherwise the first such key decides alone, with InvalidIp exactly if it did not issue this token for the source address, and then the window with too early, too late, or accepted with the exact sleep and the name of that key |
| TokenVerdicts.AcceptedIsGenuine | src/protocol/token.rs:55-196 | an accepted token was made by a loaded key with the name that is returned, for this client and a start time in the window |
| TokenVerdicts.CheckIpTokenExactly | src/protocol/token.rs:249-275 | every answer of the `/ip` check to every token; the address matches exactly if the key that signed version 1 issued the version 2 part for it |
| TokenVerdicts.MatchV1Exactly | src/protocol/token.rs:92-126 | a version 1 token is matched with the first loaded key that makes it of its fields, which are unique |
| TokenVerdicts.SignsAddressExactly | src/protocol/token.rs:205-244 | both hashes are right exactly if the key issued this very token for the address |
| Token.ReconstructTime | src/protocol/token.rs:323-332 | the nearest time with the given low 32 bits, by one correction of the current block |
| Token.WindowCheck | src/protocol/token.rs:296-312 | passes exactly from 20 s before to 90 s after the start |
| Token.TimeWindow | src/protocol/token.rs:280-292 | accepts exactly in the window, with a sleep that reaches the start |
| TokenTheorems.ReconstructIsNearest | src/protocol/token.rs:321-332 | the result is congruent to the token time and within 2^31 of now |
| TokenTheorems.ReconstructRecovers | src/protocol/token.rs:321-332 | every start less than 2^31 away is recovered from its low 32 bits, across the wrap |
| TokenTheorems.WindowOfTimeField | src/protocol/token.rs:186-195 | at one clock value version 2 passes if and only if (time - now) mod 2^32 is at most 20 or at least 2^32 - 90 |
| TokenTheorems.SameTimeVerdict | src/protocol/token.rs:279-292 | both versions give the same time verdict for the same start |
| TokenTheorems.IssuedSplits | src/protocol/token.rs:72-76 | both splitters cut an issued token at the same place |
| TokenTheorems.IssuedV1Matches | src/protocol/token.rs:92-126 | the version 1 part of an issued token yields its UUID, start and issuing key |
| TokenTheorems.IssueThenCheckIp | src/protocol/token.rs:253-275 | round trip of `/ip`: issuing key and UUID are returned in the window, for every source address, and the address is reported to match exactly if its hash does |
| TokenTheorems.IssueThenValidate | src/protocol/token.rs:130-196 | round trip of the measurement: accepted in the window from the issued address, InvalidIp from an address with another hash |
| TokenTheorems.IssueThenValidateV1 | src/protocol/token.rs:80-88 | a legacy token is accepted in the window unless version 2 is demanded |
| TokenTheorems.CheckersAgree | src/protocol/token.rs:249-275 | on an issued token in the window the two checkers agree: `/ip` reports a matching address if and only if the measurement accepts, and otherwise it says InvalidIp |
| TokenTheorems.VerdictUnordered | src/protocol/token.rs:119-182 | if at most one loaded key matches, any order of the keys gives the same verdict and label |
| TokenTheorems.CheckIpTokenUnordered | src/protocol/token.rs:253-275 | the same for `/ip` and the key that signs |
| IpCheck.AnswerToken | src/ip_check.rs:205-227 | the answer is the one for the canonical address, refusals and malformed UUIDs included |
| IpCheck.SignedAnswerExactly | src/ip_check.rs:205-227 | every answer to every token: refused as the check says, malformed exactly if the UUID field is no UUID, and otherwise signed with the key that was found, over the address and the UUID |
| IpCheck.SignatureInputDecodes | src/ip_check.rs:246-255 | two signed messages are equal if and only if the canonical addresses and the UUIDs are |
| IpCheck.SplitsAgreeWhenSigned | src/ip_check.rs:211-226 | whenever `/ip` signs, both splitters see the same version 2 part |
| IpCheck.IssueThenSign | src/ip_check.rs:211-226 | an issued token with a printed UUID is answered with the issuing key's signature of address and UUID |
| Address.MappedDeterminesAddress | src/protocol/token.rs:334-348 | two addresses have the same 16 bytes if and only if they are canonically equal |
| Address.MappedLayout | src/protocol/token.rs:336-348 | ten zero bytes, two of 0xFF, then the four of the address |
| Address.MappedIpv6 | src/protocol/token.rs:336-348 | the array is the 16-byte form of the address |
| Uuid.ParseUuid | src/ip_check.rs:258-272 | the filter and the loop over digit pairs yield the bytes of exactly the 8-4-4-4-12 form, and nothing otherwise |
| Uuid.ParsePrint | src/ip_check.rs:257-272 | parsing undoes printing |
| Uuid.PrintParse | src/ip_check.rs:257-272 | printing undoes parsing, up to letter case |
| Uuid.ParseInjective | src/ip_check.rs:257-272 | two texts with the same bytes are equal up to letter case |
| Base64.DecodeEncode | src/protocol/token.rs:131-132 | decoding undoes encoding, for every byte string |
| Base64.EncodeDecode | src/protocol/token.rs:131-132 | every text that decodes is the encoding of its bytes |
| Base64.EncodeInjective | src/protocol/token.rs:361-365 | comparing encoded digests compares digests |
| Base64.TestVectors | src/protocol/token.rs:361-365 | the test vectors of RFC 4648 |
| Text.ParsePrintInt | src/protocol/token.rs:111-114 | parsing undoes printing for every `i64` |
| Text.ParsesSigned | src/protocol/token.rs:111-114 | a time is accepted if and only if it is a decimal numeral, with or without a sign, in the range of an `i64` |
| Pool.Server.Run | src/server/mod.rs:140-270 | under any schedule the program's steps lead to the state the step function says |
| Pool.Server.PollOnce | src/server/mod.rs:181-190 | an interrupted poll changes nothing; the flag is tested after each successful one |
| Pool.Server.DispatchOne | src/server/mod.rs:210-217 | the turn passes on whether the channel takes the connection or it is dropped; `PoolService.DispatchedOrDropped` says which |
| Pool.Server.SignalOne | src/server/mod.rs:226-229 | the shutdown job is offered once to each worker and dropped if it does not fit |
| Pool.Server.TestFlag | src/server/mod.rs:251-252 | a worker at the top of its loop stops exactly if the flag is up |
| Pool.Server.ReceiveJob | src/server/mod.rs:254-266 | the worker takes the oldest job, numbers its connection and serves it, or stops |
| PoolTheorems.NextKeepsInv | src/server/mod.rs:118-270 | every step of every thread keeps the invariant: queue bound, order, partition into taken and refused turns, identifiers |
| PoolTheorems.RunKeepsInv | src/server/mod.rs:118-270 | the invariant holds in every interleaving |
| PoolTheorems.Conservation | src/server/mod.rs:210-267 | dispatched = dropped + queued + abandoned + active + finished in every interleaving; at most one session per worker and 8 jobs in each queue |
| PoolService.DispatchedOrDropped | src/server/mod.rs:210-217 | from any state: a dispatch drops the connection if and only if the worker whose turn it is has stopped or has eight jobs waiting, and otherwise the connection is the last in its queue; nothing else changes |
| PoolService.OnlyDispatchDrops | src/server/mod.rs:210-217 | no other step drops a connection |
| PoolService.NothingDropped | src/server/mod.rs:140-217 | a run in which the flag is not raised, no poll fails, and the chosen queue always has room drops and abandons nothing |
| PoolService.RunsUndisturbed | src/server/mod.rs:181-190 | until the flag is raised or a poll fails the accept loop goes on, interrupted polls included, and all workers run |
| PoolService.ServesAll | src/server/mod.rs:251-267 | an idle worker begins all connections in its queue, in order, in as many turns as there are |
| PoolService.ArrivalIsServed | src/server/mod.rs:181-267 | a connection that arrives when the worker whose turn it is is idle and has room is begun by it, once it has begun those that were waiting |
| PoolService.AcceptLoopEnds | src/server/mod.rs:188-229 | with the flag up the next poll ends the accept loop: every worker with room is told to stop behind its last job, and the loop returns |
| PoolService.WaitingStops | src/server/mod.rs:254-260 | a waiting worker that receives the shutdown job stops, and so does one whose channel is empty when the accept loop is gone |
| PoolTheorems.ServedInOrder | src/server/mod.rs:210-267 | each worker serves what it took in the order of dispatch, and only its own turns |
| PoolTheorems.ChosenFairly | src/server/mod.rs:210-212 | after m dispatches every worker was chosen m / N times, the first m mod N once more |
| PoolTheorems.DistinctIffFit | src/server/mod.rs:261-262 | identifiers are pairwise distinct if and only if no worker's count reaches into the range of a later worker that has served |
| PoolTheorems.IdsAreDistinct | src/server/mod.rs:261-262 | they are, in every run in which no worker has begun more than 100,000 connections |
| PoolTheorems.AtMostOneMore | src/server/mod.rs:251-267 | after the flag is raised a worker begins at most one more connection, and none unless it was waiting, whether or not the shutdown job fitted |
| PoolTheorems.WorkerAdvances | src/server/mod.rs:251-267 | with the flag up no step of any thread sends a worker back, and every step of its own brings it closer to its end, a queued job included |
| PoolTheorems.WorkerStops | src/server/mod.rs:251-267 | after three steps of its own with the flag up a worker has stopped, under every schedule |
| PoolTheorems.NoneAbandonedWhileRunning | src/server/mod.rs:226-267 | until the flag is raised or the accept loop fails, no worker stops and no queued connection is abandoned |
| Json.Builder.Escape | src/events.rs:271-283 | appends the escaped text |
| Json.Builder.Sep | src/events.rs:293-297 | the test for a trailing brace puts a comma exactly before every field but the first |
| Json.Builder.AddStr | src/events.rs:305-312 | the buffer is the text of the fields added, in order |
| Json.Builder.AddInt | src/events.rs:314-319 | the same for numbers |
| Json.Builder.AddBool | src/events.rs:321-326 | the same for truth values |
| Json.Builder.Finish | src/events.rs:335-338 | the text parses back to exactly the fields that were added |
| Json.EndsInBrace | src/events.rs:293-297 | the buffer ends in a brace if and only if no field was added |
| Json.ParseOpened | src/events.rs:285-338 | round trip for every list of fields: one object, the same fields, the same order |
| Json.ParseQuoted | src/events.rs:270-283 | strings with quotes, backslashes, braces and control characters are read back |
| Json.ExampleObject | src/events.rs:285-338 | the text of one object, to the letter |
| Json.ExampleString | src/events.rs:270-283 | the text of one string with a quote and a line feed |

## Left out

- Sockets, TLS, polling, thread creation and the WebSocket library: a stream is given by what the peer sends and by when writes start to fail; frames arrive complete.
- A failing write is not told apart by its cause, so the `end` reasons "disconnect" and "error" are one case.
- The inside of HMAC, SHA-1 and SHA-256, and the quality of the random chunk contents.
- Streams.Stream.ReadLine: trimming and white space are those of ASCII; Rust also trims other Unicode white space.
- Commands.ConnStats.AddPing: the counters are unbounded; the wrap of a 32-bit command or ping counter and of a 64-bit byte counter is not modelled.
- Transfer.ReportsTellChunks: the byte count of a report is unbounded; in Rust it is a `u64`, and the theorems about the wire assume that a client sends fewer than 2^64 bytes.
- Commands.ReportProgress: elapsed times are unbounded; in Rust they are `u128` and cast to `i128`.
- Clocks.Clock.NowSecs: wall clock and monotonic clock are one clock, so setting the wall clock back during a session is not modelled.
- Token.WindowCheck: the subtraction of an `i64` start time does not overflow, because a timestamp has at most 12 characters.
- Pool.Server.DispatchOne: the counters are unbounded, and a socket that cannot be made blocking is taken as not accepted.
- Json.Builder.AddInt: numbers are unbounded; floating-point fields, the concrete events and UDP syslog are not modelled.
- Json.ParseOpened: the parser refuses escapes for the halves of a surrogate pair, which the builder never writes.
- Pool.Server.Run: a session in a worker is one step from begin to finish; its inside is modelled by Connection.
- HTTP requests and answers other than the end of the header: request lines, WebSocket keys, CORS, `/version`, 405 and 426.
- The JSON request of `/ip`, its NAT classification, and the text of its answer apart from the signature.
- Command line, configuration, key files, anonymised addresses and logging, none of which the protocol depends on.
