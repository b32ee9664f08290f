# A Dafny model of Mona's calendar, server link, transport stream, database worker, relays and publications

Mona is a media server written in C++. This project models the parts of it whose correctness is not
plain from one function, and proves what they promise. `dafny verify dfyconfig.toml` checks it.

| files | what they model |
|---|---|
| `Calendar.dfy`, `Date.dfy` | a calendar that counts years and months one by one from Thursday 1 January 1970, and the `Date` class proved against it |
| `DateFormat.dfy`, `DateSkips.dfy`, `DateText.dfy` | dates printed with a format and parsed with it again; texts without a part in brackets; one date set from the text of another |
| `Codec.dfy` | `BinaryWriter` and `BinaryReader`: big-endian numbers, the three 7-bit codecs, writing over a reserved part of a buffer |
| `Reassembly.dfy` | the reception loop of `TCPClient` for any handler |
| `ServerLink.dfy` | the protocol between servers: both dictionaries of handler names, frames, headers written backwards, a link as a state machine |
| `ServerCuts.dfy` | what a delivery that stops inside a frame costs, on this connection and the next |
| `Greeting.dfy` | the first message of that protocol |
| `Substreams.dfy`, `TsPackets.dfy`, `TsFrames.dfy`, `H264Units.dfy`, `MpegTs.dfy`, `TsReading.dfy` | MPEG-TS packets, a demultiplexer after ISO/IEC 13818-1 that reads them back, and a reader of the units after ISO/IEC 14496-10 |
| `DatabaseWorker.dfy` | `Database`, `Startable` and `Signal` as the interleaved steps of any number of threads and one worker |
| `DatabaseDeadlocks.dfy` | the states from which that worker can no longer end, and runs that lead to them |
| `Relay.dfy` | the three indexes of `RelayServer`, and routing |
| `MediaLog.dfy`, `Listening.dfy`, `Publishing.dfy`, `Invoking.dfy`, `Delivery.dfy`, `InvokingCases.dfy` | what a listener is given, listeners, publications, the registry of publications over whole runs, what becomes of each frame, and runs that fail |
| `FlashStreams.dfy` | the numbers given to Flash streams |
| `SendQueue.dfy` | `SocketSender` and the queue of `Socket` |
| `CArithmetic.dfy`, `Sequences.dfy` | C++ division and 32-bit wrap, and lemmas on division and concatenation |

Code that updates objects is a class whose methods are proved against functions of the old state; what
the program promises over several calls is proved about those functions and about runs of them.

## Assumptions

- `floor(time / 86400000.0)` is the exact integer floor.
- `Date::GMT` and `Date::LOCAL` are distinguished offsets; dates are given GMT or a fixed offset. What the zone table
  answers is a parameter.
- The clock, what the system takes or refuses (bytes, ports, threads), and what handlers answer are
  parameters or free choices.
- A peer is its identity. A relay is known by its peers, addresses, port and timeout, which no two
  relays of a server share.
- Shifts by 32 or more, and overflow of signed numbers while parsing, which C++ leaves undefined, lose
  the high bits.
- `Startable::running()` is the negation of `_stop`, and `wakeUp()` sets the signal.

## Where the code does less than it promises

- `Date::setDay` on a date that has no value yet takes the present time over the fields just set when
  the day is above 28 (`FreshDateLosesFields`, `PresentAgreesExactly`, `Date.UpdateFields`,
  `CopyThroughText`).
- A date without a value is local, and only GMT or the present time makes it not so: a date made with a
  day of 28 or less and a fixed offset takes the offset of the zone table (`TimeOfNew`,
  `NewDateIsLocal`).
- `Date::setOffset` moves the instant by both offsets instead of their difference (`Date.SetOffset`,
  `OffsetMovesInstant`).
- `Date::time()` multiplies by 365 on 32 bits (`Date.Time`, `FarYearOverflows`).
- `Date::setHour` accepts hours up to 59 (`Date.SetClock`).
- A comment on `LeapYears` says year 0 is not leap; `IsLeapYear` and the arithmetic say it is, and the
  model follows them.
- The format directive `o` prints a space that parsing does not skip (`SpacedMonthReadsExactly`).
- Directives inside a part in brackets that is skipped are read all the same
  (`MissingPartIsSkipped`, `SkippedPartStillReads`).
- `write7BitLongValue` and `read7BitLongValue` disagree from 2^56 on (`LongReadBack`), and from 2^63 on
  the loop that looks for the size never ends (`SizeLoopEndsExactly`).
- `ServerConnection::onReception` remembers the size of an unfinished frame but leaves the size in the
  buffer, where it is taken for the frame; `onDisconnection` does not forget it
  (`AllArrivesExactly`, `CutMessageIsLost`, `FirstMessageArrivesExactly`).
- `sendHello` writes the number of ports on eight bits (`HelloReadsBackExactly`).
- `MPEGTS::WritePES` writes a start code without looking at the room left: with three bytes the frame
  is given up, with one or two the 8-bit count wraps (`FrameIsFaithfulExactly`, `MisfitIsWrittenWrong`,
  `ThreeBytesLeftIsMisaligned`).
- The ADTS header counts the first packet only (`AdtsLengthExactly`).
- `Startable::start` and `Startable::stop` join the last thread while they hold the mutex that thread
  needs to end (`HolderIsStuckExactly`, `JoiningTooEarlyIsReachable`, `FlushingTooEarlyIsReachable`); and
  an add that starts while a flush waits for the worker keeps the mutex the worker needs to look at
  the queue (`AddingDuringFlushIsReachable`). There is no other way for the worker never to end
  (`WorkerCanEndExactly`).
- A failure while the queue of a socket is flushed also ends the senders behind the one that failed
  (`FailureEndsSender`, `FlushingKeepsBytesExactly`).
- Turning video off and on again with nothing in between lets a frame pass that follows no key frame
  (`GatedSinceOffExactly`, `OffUnnoticedShows`).
- A piece of a substream map whose end wraps on 32 bits is accepted (`SubstreamMap.AddSub`).
- A listener's times go back when its publisher's do, once they went forward (`TimesAscendExactly`,
  `GoingBackShows`).

## Model

| member | source | states |
|---|---|---|
| Calendar.WeekDayIsModulo | MonaBase/sources/Date.cpp:395-403 | days of the week repeat every seven days, counted from a Thursday, for days before 1970 as well |
| Calendar.DayNumberIsInjective | MonaBase/sources/Date.cpp:83-167 | two valid dates of the proleptic Gregorian calendar with the same day number are the same date |
| DateModel.LeapYearsCounts | MonaBase/sources/Date.cpp:72-80 | the closed form counts exactly the leap years between 1970 and any year, negative years and year 0 included |
| DateModel.GuessMoves | MonaBase/sources/Date.cpp:111-116 | each turn of the year search comes strictly nearer to one year and never passes it; no other year on the way ends the search |
| DateModel.InstantHasOneReading | MonaBase/sources/Date.cpp:83-167 | an instant has one reading in fields only |
| DateModel.Date.SearchYear | MonaBase/sources/Date.cpp:107-118 | the search ends, on the year of the calendar (or the one after, before 1970) with the days that are left |
| DateModel.Date.YearAndDay | MonaBase/sources/Date.cpp:107-134 | year and day of the year are the calendar's for every day number, of either sign |
| DateModel.Date.MonthAndDay | MonaBase/sources/Date.cpp:136-144 | month and day are the calendar's for every day of the year |
| DateModel.Date.ComputeWeekDay | MonaBase/sources/Date.cpp:395-403 | the day of the week is the calendar's, counted day by day from 1970 |
| DateModel.Date.SetClockOf | MonaBase/sources/Date.cpp:146-165 | hours, minutes, seconds and milliseconds make the time of day, before 1970 as well |
| DateModel.Date.Update | MonaBase/sources/Date.cpp:83-167 | every instant and fixed offset gives the one valid date, clock and day of the week that name it |
| DateModel.Date.Time | MonaBase/sources/Date.cpp:169-200 | the fields come back as the instant they name, up to the 32-bit wrap of the product by 365, at the date's offset or, if it is local, at the one the zone table has; the date stays consistent if and only if that product fits |
| DateModel.FarYearOverflows | MonaBase/sources/Date.cpp:183 | the product fits exactly from year -5881546 to year 5885486 |
| DateModel.Date.Add | MonaBase/sources/Date.cpp:169-200 | a date of a fixed offset moved along names the moved instant with the same offset, and moved by nothing reads the same |
| DateModel.Date.WeekDay | MonaBase/sources/Date.cpp:380-386 | the day of the week asked for is that of the instant on the date's own clock, also after the fields changed |
| DateModel.Date.OffsetNow | MonaBase/sources/Date.cpp:203-227 | the offset asked for is the date's own, or the zone table's if the date is local and its fields changed; GMT makes it not local |
| DateModel.Date.SetMonth | MonaBase/sources/Date.cpp:301-310 | the month is clamped, the other fields stay |
| DateModel.Date.SetClock | MonaBase/sources/Date.cpp:287-292 | the four fields of the clock are clamped as the code does, and the date stays consistent |
| DateModel.Date.SetDay | MonaBase/sources/Date.cpp:312-341 | the day is cut to the month, except that a date without a value first takes the present one for a day above 28; it is consistent if and only if it has a month then |
| DateModel.Date.SetOffset | MonaBase/sources/Date.cpp:229-247 | the date stays consistent exactly if it was to be refreshed, or the old offset was 0, or both are GMT; only GMT makes it not local |
| DateModel.OffsetMovesInstant | MonaBase/sources/Date.cpp:245-246 | an input that fails: from +1h to +2h |
| DateModel.Date.UpdateFields | MonaBase/sources/Date.cpp:268-276 | all the fields are kept if and only if the date had a value, or the day is 28 at most, or the present time agrees; it stays local if and only if it was, the offset is not GMT and the present time was not read |
| DateModel.PresentAgreesExactly | MonaBase/sources/Date.cpp:312-341 | the present time agrees exactly when it reads as the given fields but for the day |
| DateModel.FreshDateLosesFields | MonaBase/sources/Date.cpp:320-322 | an input that fails: 31 January 2005, set on a date without a value on 1 January 1970 |
| DateModel.TimeOfNew | MonaBase/include/Mona/Date.h:71-73 | a date made of all its fields and a fixed offset has the instant they name if and only if, for a day of 28 at most, the offset is GMT's or the zone table's and, for a later day, the present time agrees |
| DateModel.NewDateIsLocal | MonaBase/include/Mona/Date.h:71 | an input that fails: noon of 1 January 2005 at +1h, where the zone table says GMT, is the instant of noon GMT |
| DateFormat.ParseInvertsPrint | MonaBase/sources/Date.cpp:429-626 | for every format whose directives each tell a whole field once and end where the next item starts, and every date with a year of four digits and an offset of whole minutes below 100 hours, parsing gives back what was printed |
| DateFormat.IsoRoundTrip | MonaBase/sources/Date.cpp:30-31 | all fields and the offset survive the ISO 8601 format with fractions, all but the milliseconds the one without |
| DateFormat.HttpRoundTrip | MonaBase/sources/Date.cpp:34 | all fields but the milliseconds, and the offset, survive the HTTP format |
| DateFormat.HttpDateIsFixed | MonaBase/sources/Date.cpp:571-626 | a GMT date prints for HTTP as the 29 characters of an IMF-fixdate, section 7.1.1.1 of RFC 7231, with the letters of its days and months |
| DateFormat.NamesShown | MonaBase/sources/Date.cpp:43-68 | Sunday is day 0 and January month 1, and their three letters are those of RFC 7231 |
| DateFormat.ReadsShown | MonaBase/sources/Date.cpp:479-561 | every directive but y, o, h, a, A and c reads what it prints and leaves what follows |
| DateFormat.SpacedMonthReadsExactly | MonaBase/sources/Date.cpp:496-500 | the directive o, which pads with a space, is read back exactly from October on |
| DateFormat.TwelveHoursReadBack | MonaBase/sources/Date.cpp:611-613 | the directives h and a, read one after the other, give the hour back |
| DateFormat.CenturyReadsBackExactly | MonaBase/sources/Date.cpp:503-509 | two digits give the year back if and only if it is from 1970 to 2069 |
| DateFormat.TenthsReadBackExactly | MonaBase/sources/Date.cpp:548-551 | tenths of a second give the milliseconds back if and only if these are hundreds |
| DateFormat.ReadZoneBack | MonaBase/sources/Date.cpp:629-676 | an offset of whole minutes comes back from its text, with its sign, with or without the colon |
| DateFormat.ToString | MonaBase/sources/Date.cpp:571-626 | the printing loop prints the format |
| DateFormat.ParseNumber | MonaBase/sources/Date.cpp:416-420 | the digit loop reads at most n digits, on the width of the variable |
| DateFormat.ParseText | MonaBase/sources/Date.cpp:443-563 | the parsing loop is the parsing function; what this does where a part in brackets is missing is told below |
| DateSkips.MissingPartIsSkipped | MonaBase/sources/Date.cpp:450-477 | where the text does not go on with the next plain character of a part in brackets, parsing goes on after the part, but for what the directives still in it read |
| DateSkips.MissingPartMakesNoDifference | MonaBase/sources/Date.cpp:450-477 | if these directives could not be reading the text, the format reads what it reads without the part |
| DateSkips.IdleExactly | MonaBase/sources/Date.cpp:416-424 | for numbers, days and names the first character of the text decides that, exactly |
| DateSkips.WeekDayMayBeMissing | MonaBase/sources/Date.cpp:32 | the RFC 822 format reads a text without day of the week as it would without that part |
| DateSkips.ShortTextIsAccepted | MonaBase/sources/Date.cpp:445 | a text that ends before its format gives what was read so far |
| DateSkips.YearAlone | MonaBase/sources/Date.cpp:30 | so the ISO 8601 format reads a year of four digits alone |
| DateSkips.SkippedPartStillReads | MonaBase/sources/Date.cpp:450-477 | an input that fails: 59 is read as minutes by a part that is skipped, and not as the seconds after it |
| DateText.Tell | MonaBase/sources/Date.cpp:571-626 | what is printed is what the date tells: its fields, the day of the week of its instant, its offset, GMT only if it is not local |
| DateText.CopyThroughText | MonaBase/sources/Date.cpp:429-569 | a date set from what another one prints has its offset, and all fields the format tells if and only if it had a value, or the day is 28 at most, or the present time agrees |
| Codec.Encode7BitDecodes | MonaBase/sources/BinaryWriter.cpp:55-64 | read7BitEncoded inverts write7BitEncoded and stops after its last byte, whatever follows |
| Codec.Encode7BitSize | MonaBase/sources/Util.cpp:85-93 | a value takes n bytes or fewer if and only if it is below 128 to the n |
| Codec.SizeLoopEndsExactly | MonaBase/sources/Util.cpp:85-93 | the size loop ends on a 64-bit value if and only if it is below 2^63 |
| Codec.Get7BitValueSize | MonaBase/sources/Util.cpp:85-93 | wherever it ends, the size loop gives exactly the number of bytes written |
| Codec.U29ReadBack | MonaBase/sources/BinaryReader.cpp:100-113 | read7BitValue after write7BitValue gives the value modulo 2^29, with exact consumption (U29, section 1.3.1 of AMF 3) |
| Codec.LongReadBack | MonaBase/sources/BinaryReader.cpp:115-128 | the long pair consumes exactly what it wrote, and gives the value back if and only if it is below 2^56 |
| Codec.BigEndian32Reads | MonaBase/sources/BinaryReader.cpp:83-90 | read32 inverts write32 |
| Codec.SpliceTwice | MonaBase/include/Mona/BinaryWriter.h:36-45 | writing one text after another is writing both, over a fixed buffer or a growing one |
| Codec.BinaryWriter.WriteRaw | MonaBase/include/Mona/BinaryWriter.h:36-45 | a text is appended, or written over the bytes of a fixed buffer and cut at its end |
| Codec.BinaryWriter.WriteString8 | MonaBase/include/Mona/BinaryWriter.h:60 | a string8 is the low eight bits of its size and its bytes |
| Codec.BinaryWriter.Write7BitEncoded | MonaBase/sources/BinaryWriter.cpp:55-64 | the loop writes the encoding |
| Codec.BinaryWriter.Write7BitValue | MonaBase/sources/BinaryWriter.cpp:103-116 | the loop writes the AMF integer |
| Codec.BinaryWriter.Write7BitLongValue | MonaBase/sources/BinaryWriter.cpp:118-129 | the loop writes the long form |
| Codec.BinaryReader.ReadGroupsUpTo | MonaBase/sources/BinaryReader.cpp:100-128 | the reading loop, for 3 or 8 continued bytes, is the decoding function, at the end of the data as well |
| Codec.BinaryReader.Read7BitEncoded | MonaBase/sources/BinaryReader.cpp:53-65 | the reading loop decodes modulo 2^32 and takes exactly the bytes of the encoding |
| Codec.BinaryReader.ReadRaw | MonaBase/sources/BinaryReader.cpp:42-51 | bytes are read as far as there are, the rest stays zero |
| Codec.BinaryReader.Shrink | MonaBase/sources/BinaryReader.cpp:34-40 | what is left is cut, never lengthened |
| Reassembly.DrainKeepsUnconsumed | MonaBase/sources/TCPClient.cpp:66-94 | whatever the handler answers, the bytes it took, call after call, followed by those kept are the bytes offered, and those kept are what its last call left |
| Reassembly.ReceptionsKeepUnconsumed | MonaBase/sources/TCPClient.cpp:41-96 | the same over any receptions: what was taken followed by what is kept is what was received, none lost, doubled or moved |
| ServerLink.HeaderParts | MonaServer/sources/ServerConnection.cpp:101-110 | the header is the size word, then the name with its size, or a zero and the number; it takes five bytes more than the name or the number |
| ServerLink.HeaderIsFrame | MonaServer/sources/ServerConnection.cpp:77-110 | size, name or number, and body make the frame; the size counts exactly the bytes after it |
| ServerLink.ServerMessage.WriteHeader | MonaServer/sources/ServerConnection.cpp:103-110 | the header written over the reserved bytes fills them to the last and leaves the body |
| ServerLink.ServerMessage.Address | MonaServer/sources/ServerConnection.cpp:101-110 | the shift stays within the 300 reserved bytes, and what goes to the socket is the frame |
| ServerLink.ServerConnection.Refer | MonaServer/sources/ServerConnection.cpp:86-99 | a name already sent gives way to its number, a new one is numbered |
| ServerLink.ServerConnection.Send | MonaServer/sources/ServerConnection.cpp:77-115 | the dictionary learns the name, cut to its first 255 bytes, the frame of this name is queued, the body is untouched |
| ServerLink.ServerConnection.OnReception | MonaServer/sources/ServerConnection.cpp:118-176 | one call of the handler: too short, unfinished, or one frame taken |
| ServerLink.ServerConnection.TakePayload | MonaServer/sources/ServerConnection.cpp:133-148 | a payload teaches a name or refers to one, and empties the remembered size |
| ServerLink.ServerConnection.OnReadable | MonaBase/sources/TCPClient.cpp:41-96 | a reception is appended to what was kept and handed on frame after frame |
| ServerLink.ServerConnection.Close | MonaServer/sources/ServerConnection.cpp:178-180 | both dictionaries are forgotten, the size of a frame begun is not |
| ServerLink.DispatchReadsPayload | MonaServer/sources/ServerConnection.cpp:133-148 | a payload gives back its name and body, and the receiver learns what the sender learnt |
| ServerLink.DrainReadsStream | MonaServer/sources/ServerConnection.cpp:118-176 | any number of coalesced frames splits back into the frames sent |
| ServerLink.SendKeepsSync | MonaServer/sources/ServerConnection.cpp:77-115 | sending keeps both ends in step: the receiver's map is the inverse of the sender's on what was delivered, and every reference in flight can be resolved |
| ServerLink.SmoothRunStaysInSync | MonaServer/sources/ServerConnection.cpp:77-176 | so does every run of such deliveries and any sends |
| ServerLink.LinkIsFaithful | MonaServer/sources/ServerConnection.cpp:77-176 | over every such run the receiver has had the first frames that were given, in order, names cut to their first 255 bytes and nothing else changed; once nothing is on the wire all of them, and exactly those given if no name was longer |
| ServerCuts.RememberedSizeLosesFrame | MonaServer/sources/ServerConnection.cpp:119-148 | with its size remembered, a frame under 64 KB is taken from its size on, whatever follows, and comes out as another one |
| ServerCuts.AllArrivesExactly | MonaServer/sources/ServerConnection.cpp:77-176 | over every run that leaves nothing on the wire, with frames under 64 KB, the receiver got the frames given, names cut to 255 bytes, if and only if no delivery stopped between the size of a frame and its end |
| ServerCuts.CutMessageIsLost | MonaServer/sources/ServerConnection.cpp:119-126 | a run that fails: a message of six bytes, delivered in pieces of four and two |
| ServerCuts.FirstMessageArrivesExactly | MonaServer/sources/ServerConnection.cpp:178-191 | after a disconnection on both ends, the first message of the next connection comes as it was sent if and only if the last delivery before left fewer than four bytes of a frame |
| Greeting.HelloReadsBackExactly | MonaServer/sources/ServerConnection.cpp:48-64 | the greeting is read as it was written if and only if it tells of fewer than 256 ports |
| Greeting.WriteHello | MonaServer/sources/ServerConnection.cpp:48-64 | host, number of ports on eight bits, ports and properties are appended |
| Greeting.TakePorts | MonaServer/sources/ServerConnection.cpp:154-160 | as many ports as told are read, later ones over earlier ones |
| Greeting.TakeHello | MonaServer/sources/ServerConnection.cpp:149-166 | the host, or the address if it is empty, the ports and the properties are taken, to the last byte |
| Greeting.LastPortIsKnown | MonaServer/sources/ServerConnection.cpp:156-159 | the last port told for a protocol is the one known; other protocols keep theirs |
| Greeting.LastValueIsKnown | MonaServer/sources/ServerConnection.cpp:161-166 | so is the last value of a property |
| Substreams.ReadsGiveTheSubstreams | MonaBase/sources/SubstreamMap.cpp:34-57 | reads of any positive sizes give the substreams one after the other: what was read followed by what is left is what there was, at least a byte each time while there is one, all of it after enough reads |
| Substreams.SubstreamMap.ReadNextSub | MonaBase/sources/SubstreamMap.cpp:34-57 | the cursor's reading is that of the pieces not read yet |
| Substreams.SubstreamMap.AddSub | MonaBase/sources/SubstreamMap.cpp:27-32 | a substream joins the end of what is unread if it is not empty and inside the data, also while another one is half read; only one whose end wraps on 32 bits breaks the map |
| Substreams.SubstreamMap.TotalSize | MonaBase/sources/SubstreamMap.cpp:59-66 | the total is the number of bytes the substreams hold |
| TsPackets.ToWriteIsTheMost | MonaCore/sources/MediaContainer.cpp:319-334 | a packet is as full as it can be and never promises more than there is, so the assertion of line 311 holds |
| TsPackets.StreamOfPacket | MonaCore/sources/MediaContainer.cpp:213-309 | a demultiplexer finds in a packet of 188 bytes what was put into it, stuffing and PES header removed |
| TsPackets.FirstPacketTellsTime | MonaCore/sources/MediaContainer.cpp:235-296 | PCR and PTS of a first packet read 90 times the time modulo 2^32, with the six reserved bits, the prefix and the three marker bits around them (sections 2.4.3.5 and 2.4.3.7 of ISO/IEC 13818-1) |
| TsPackets.FirstPacketStarts | MonaCore/sources/MediaContainer.cpp:227-289 | a first packet has a field whose flags tell a key frame, then the nine bytes of a PES header for its track (section 2.4.3.7 of ISO/IEC 13818-1) |
| TsPackets.AdtsLengthExactly | MonaCore/sources/MediaContainer.cpp:303-306 | the ADTS header tells the length of the frame if and only if it fits one packet |
| TsFrames.FittingPacketIsFilled | MonaCore/sources/MediaContainer.cpp:336-362 | if no unit starts on fewer than four bytes of room, a packet is filled exactly |
| TsFrames.MisfitIsWrittenWrong | MonaCore/sources/MediaContainer.cpp:336-362 | otherwise it comes out too long, or the frame is given up |
| TsFrames.FrameIsFaithfulExactly | MonaCore/sources/MediaContainer.cpp:204-362 | the packets of a frame are whole and carry exactly its elementary stream if and only if every unit starts on four bytes or more of room |
| TsFrames.ThreeBytesLeftIsMisaligned | MonaCore/sources/MediaContainer.cpp:343-351 | an input that fails: two units, the second on three bytes of room |
| TsFrames.OneUnitIsAligned | MonaCore/sources/MediaContainer.cpp:336-362 | a frame of one unit always comes through |
| TsFrames.AudioIsAligned | MonaCore/sources/MediaContainer.cpp:336-362 | so does every audio frame |
| TsFrames.PacketsFollow | MonaCore/sources/MediaContainer.cpp:213-238 | every packet has the sync byte, the start flag, the PID of its track and the next continuity counter modulo 16 |
| H264Units.UnitsAreFound | MonaCore/sources/MediaContainer.cpp:129-176 | the units laid out with their sizes, two bytes or four, are found again, all and in order |
| MpegTs.MPEGTS.GetAdaptiveSize | MonaCore/sources/MediaContainer.cpp:319-334 | header, field, PES header and as much of the stream as there is room for make 188 bytes; a first packet has a field with the seven bytes of its clock |
| MpegTs.MPEGTS.WriteUnit | MonaCore/sources/MediaContainer.cpp:342-358 | one turn of the filling loop takes some of what is unread, after a start code if a unit begins; which bytes these are is told by TsReading.VideoIsStartCodedExactly |
| MpegTs.MPEGTS.WritePES | MonaCore/sources/MediaContainer.cpp:336-362 | the filling loop writes what the cursor gives, 8-bit wrap included |
| MpegTs.MPEGTS.MakeHeader | MonaCore/sources/MediaContainer.cpp:213-309 | headers, adaptation field and PES header are byte for byte those of the packet |
| MpegTs.MPEGTS.WritePacket | MonaCore/sources/MediaContainer.cpp:204-313 | one packet is written and the track's counter moves by one |
| MpegTs.MPEGTS.WriteTS | MonaCore/sources/MediaContainer.cpp:204-317 | the recursion ends and writes all the packets; other tracks keep their counters |
| MpegTs.MPEGTS.ParseNAL | MonaCore/sources/MediaContainer.cpp:129-176 | the units are those laid out in the frame |
| MpegTs.MPEGTS.ParseAudio | MonaCore/sources/MediaContainer.cpp:178-186 | an audio frame is all but its two first bytes |
| MpegTs.MPEGTS.Write | MonaCore/sources/MediaContainer.cpp:189-202 | the packets of a frame, which are told below, are appended; counters go on across calls |
| MpegTs.VideoComesThroughExactly | MonaCore/sources/MediaContainer.cpp:129-202 | from frame to demultiplexer: the units come back start-coded if and only if each starts on four bytes or more of room |
| MpegTs.AudioComesThrough | MonaCore/sources/MediaContainer.cpp:178-202 | every audio frame longer than two bytes comes through |
| TsReading.VideoIsStartCodedExactly | MonaCore/sources/MediaContainer.cpp:129-362 | the packets of a video frame are whole, around the delimiter 00 00 00 01 09 10 (or 30) and each unit after 00 00 01, if and only if each unit starts with four bytes or more left of the 156 of the first packet or the 184 of another |
| TsReading.VideoIsDecoded | MonaCore/sources/MediaContainer.cpp:129-362 | the bytes written for such a frame, cut into packets, demultiplexed and split at 00 00 01, are the delimiter and the units, if no unit holds 00 00 01 |
| TsReading.AudioIsRead | MonaCore/sources/MediaContainer.cpp:178-362 | the bytes written for an audio frame, cut and demultiplexed, are the seven bytes of an ADTS header and the frame without its first two bytes |
| DatabaseWorker.RunKeepsInv | MonaBase/sources/Database.cpp:40-95 | locks, order, life of the worker and wake-ups are kept by every interleaving |
| DatabaseWorker.QueueIsFirstInFirstOut | MonaBase/sources/Database.cpp:46-48 | what the worker has taken followed by what is queued is what was pushed, in order |
| DatabaseWorker.NoWakeUpIsLost | MonaBase/sources/Signal.cpp:28-52 | a worker asleep on an unset signal over a queue that is not empty is about to be woken by a thread that is named |
| DatabaseWorker.WorkerEndsOnEmptyQueue | MonaBase/sources/Database.cpp:73-81 | the worker ends without error on an empty queue only; no second worker is created beside it |
| DatabaseWorker.EntriesWaitForAWorker | MonaBase/sources/Startable.cpp:114-168 | unless a write fails, entries that wait have a worker that will look at them, not left asleep once no caller is at work; after a failure they wait for it or for the next caller |
| DatabaseWorker.FailureStopsWorker | MonaBase/sources/Database.cpp:87-91 | after a write that fails the worker takes no entry but that one, and looks at none, until a new worker is created |
| DatabaseDeadlocks.WorkerCanEndExactly | MonaBase/sources/Startable.cpp:109-168 | in every state reached, some run with no failing write brings a living worker to its end if and only if neither the stop mutex is taken while it waits for it, nor _stop is set while an add has the database's mutex before start; from these states no run does |
| DatabaseDeadlocks.HolderIsStuckExactly | MonaBase/sources/Startable.cpp:126-168 | a thread that has the stop mutex keeps it for ever if and only if it joins, in start or in stop, a worker that has yet to take this mutex to end |
| DatabaseDeadlocks.JoiningTooEarlyIsForEver | MonaBase/sources/Startable.cpp:126-132 | a start that joins such a worker inside an add stops every thread for good |
| DatabaseDeadlocks.JoiningTooEarlyIsReachable | MonaBase/sources/Startable.cpp:126-132 | an interleaving that leads there: an entry is added between the worker's last look and its end |
| DatabaseDeadlocks.FlushingTooEarlyIsReachable | MonaBase/sources/Startable.cpp:155-161 | another one: a flush comes there |
| DatabaseDeadlocks.AddingDuringFlushIsReachable | MonaBase/sources/Startable.cpp:155-168 | a third one: an entry is added while a flush waits for a worker that has yet to look |
| Relay.PeersAgree | MonaCore/sources/RelayServer.cpp:179-184 | a peer is indexed, with exactly its relays, if and only if it has one |
| Relay.SocketsAgree | MonaCore/sources/RelayServer.cpp:229-241 | a socket exists if and only if it carries a relay |
| Relay.AddressesAgree | MonaCore/sources/RelayServer.cpp:47-52 | its addresses are exactly those of the relays it carries, each of one relay only |
| Relay.RouteIsAnInvolution | MonaCore/sources/RelayServer.cpp:69-89 | routing goes back and forth between two addresses and never to the sender |
| Relay.ManagedExactly | MonaCore/sources/RelayServer.cpp:211-227 | over every run a relay is kept if and only if it was made, or forwarded its last packet, at most its timeout ago |
| Relay.RelayServer.Stop | MonaCore/sources/RelayServer.cpp:108-122 | nothing is left in any index |
| Relay.RelayServer.Manage | MonaCore/sources/RelayServer.cpp:211-227 | exactly the relays whose last use is longer ago than their timeout go; the indexes agree |
| Relay.RelayServer.Remove | MonaCore/sources/RelayServer.cpp:191-209 | exactly the relays of the peer go; the indexes agree |
| Relay.RelayServer.Add | MonaCore/sources/RelayServer.cpp:124-189 | the port is that of the first socket, by port, that has this pair or neither address, else the first that can be bound above those in use; 0 says there is none; the indexes agree; a new relay is used now |
| Relay.RelayServer.OnReception | MonaCore/sources/RelayServer.cpp:69-96 | a packet goes to the other address of its relay, from an unknown address nowhere; one that leaves is the relay's last use, and no other relay's |
| Relay.RelayServer.ReleaseRelay | MonaCore/sources/RelayServer.cpp:229-241 | the two addresses go, and the socket with the last one |
| Relay.RelayServer.RemovePeerRelay | MonaCore/sources/RelayServer.cpp:244-253 | the relay leaves the peer, and the peer the index with its last relay |
| MediaLog.TimesAscendExactly | MonaCore/sources/Listener.cpp:106-135 | whatever publishers come and go, a listener's times never go back if and only if each publisher's times do not, except while its latest is still its lowest |
| MediaLog.GatedSinceOffExactly | MonaCore/sources/Listener.cpp:170-189 | after video was turned off and on again a key frame comes first if and only if each time a frame was withheld, or a start, a loss or a key frame came, before the next frame that is not one |
| InvokingCases.GoingBackShows | MonaCore/sources/Listener.cpp:114-118 | a run that fails: a key frame at 5, frames at 9 and 7 |
| InvokingCases.OffUnnoticedShows | MonaCore/sources/Listener.cpp:170-189 | a run that fails: video turned off and on between two frames |
| Listening.PushedVideoIsSound | MonaCore/sources/Listener.cpp:170-207 | a video frame keeps a listener's log good: gated by a key frame, after its settings, on time |
| Listening.PushedAudioIsSound | MonaCore/sources/Listener.cpp:210-235 | so does an audio frame; that it is written is told by Delivery.AudioGoesOut |
| Listening.StartedIsSound | MonaCore/sources/Listener.cpp:123-128 | so does a publisher that comes |
| Listening.StoppedIsSound | MonaCore/sources/Listener.cpp:130-135 | so does one that goes |
| Listening.Listener.ComputeTime | MonaCore/sources/Listener.cpp:106-121 | the clock's step, on 32 bits |
| Listening.Listener.Initialise | MonaCore/sources/Listener.cpp:78-95 | the writers are made and the clock begins again |
| Listening.Listener.PassGate | MonaCore/sources/Listener.cpp:170-189 | a video frame passes if it is asked for and a key frame came |
| Listening.Listener.PushVideoPacket | MonaCore/sources/Listener.cpp:170-207 | a video frame is withheld, dropped, or written after the settings it needs |
| Listening.Listener.PushAudioPacket | MonaCore/sources/Listener.cpp:210-235 | an audio frame is withheld, or written after the settings it needs |
| Publishing.SeenIsSound | MonaCore/sources/Publication.cpp:178-217 | a video frame keeps every listener's log good |
| Publishing.Publication.Start | MonaCore/sources/Publication.cpp:83-101 | a publisher is accepted if there is none and it is allowed; then every listener hears of it once, else nothing changes |
| Publishing.Publication.Stop | MonaCore/sources/Publication.cpp:103-122 | only the publisher stops; every listener hears of it once and the settings are forgotten |
| Publishing.Publication.AddListener | MonaCore/sources/Publication.cpp:47-68 | one listener a peer; a new one hears at once that someone publishes |
| Publishing.Publication.RemoveListener | MonaCore/sources/Publication.cpp:70-80 | the listener of that peer goes, the others stay |
| Publishing.Publication.PushAudio | MonaCore/sources/Publication.cpp:151-176 | settings are kept, and every listener is given the frame |
| Publishing.Publication.PushVideo | MonaCore/sources/Publication.cpp:178-217 | a loss closes the gate, a key frame opens it, settings are kept, and every listener is given what passes |
| Invoking.RegistryAgrees | MonaCore/sources/Invoker.cpp:78-124 | over every run, a publication is registered if and only if someone publishes it or listens to it, and it knows exactly who, as the answers to the requests tell |
| Invoking.LogsAreGood | MonaCore/sources/Listener.cpp:123-207 | over every run, START and STOP alternate in each listener's log, the last is START exactly when someone publishes, frames come only between them, no video comes before a key frame since the latest start, loss or withheld frame (nor since video was turned off, exactly as above), and times ascend if and only if the publishers' do |
| Invoking.FramesHaveTheirSettings | MonaCore/sources/Publication.cpp:162-206 | over every run, when a frame has just been written, the codec settings the listener last had are the publication's |
| Delivery.AudioGoesOut | MonaCore/sources/Listener.cpp:210-235 | over every run, an audio frame ends the log of each listener that asks for audio, as its requests say, with its own time, after nothing but the opening of the writers and the settings; the others are given nothing |
| Delivery.VideoGoesOut | MonaCore/sources/Listener.cpp:170-207 | over every run, a video frame ends the log of a listener if and only if someone publishes, it asks for video, and the frame is a key frame or follows one, with no start, loss or withheld frame since |
| Delivery.WritersOpenOnce | MonaCore/sources/Listener.cpp:78-95 | over every run the writers of a listener are opened once, before its first frame |
| Invoking.Invoker.Publish | MonaCore/sources/Invoker.cpp:78-89 | the publication is made if need be, and erased again after a refusal that leaves it unused |
| Invoking.Invoker.Unpublish | MonaCore/sources/Invoker.cpp:91-101 | a publication left unused is erased |
| Invoking.Invoker.Subscribe | MonaCore/sources/Invoker.cpp:103-112 | the publication is made if need be, and erased again after a refusal that leaves it unused |
| Invoking.Invoker.Unsubscribe | MonaCore/sources/Invoker.cpp:114-124 | a publication left unused is erased |
| FlashStreams.Numbering.CreateFlashStream | MonaCore/sources/Invoker.cpp:41-48 | the search ends on the first unused number after the last one given, never 0, across the 32-bit wrap |
| SendQueue.FlushedKeepsBytes | MonaBase/sources/SocketSender.cpp:52-93 | what leaves followed by what is left is what there was, across the switch from lent bytes to their copy; what waits keeps its own bytes |
| SendQueue.FailureEndsSender | MonaBase/sources/SocketSender.cpp:70-76 | after a failure, its own or one met earlier in the call, a sender is over: nothing is left of it, and no later flush sends a byte |
| SendQueue.FlushingKeepsBytesExactly | MonaBase/sources/Socket.cpp:372-389 | flushing the queue keeps every byte, sent or waiting, in order, if and only if it meets no failure |
| SendQueue.BytesLeaveInOrder | MonaBase/sources/Socket.cpp:357-389 | over every run without failure, what the system took followed by what waits is what was sent, in order |
| SendQueue.NothingLeavesWhileConnecting | MonaBase/sources/Socket.cpp:357-360 | whatever is sent before the connection is made waits in order, and no byte of it leaves unless somebody flushes |
| SendQueue.SocketSender.Flush | MonaBase/sources/SocketSender.cpp:52-80 | one flush of a sender |
| SendQueue.SocketSender.Buffering | MonaBase/sources/SocketSender.cpp:82-93 | lent bytes are copied once, from the position on |
| SendQueue.Socket.Send | MonaBase/include/Mona/Socket.h:128-143 | a sender goes out at once if nothing waits, what is left of it is queued |
| SendQueue.Socket.Flush | MonaBase/sources/Socket.cpp:372-389 | the queue goes out front first, as far as the system takes it, with the failures of the call remembered |

## Left out

- Dates given the offset `Date::LOCAL`, the time zone database and daylight saving: the zone table's answer is a parameter of the methods that ask for it, and what its search asks of the date in passing (its day of the week) is not modelled.
- DateModel.Date.Add: a local date moved along is read again in local time, which is not part of this model.
- DateModel.TimeOfNew: the fields and the present time are of years whose days fit 32 bits, so that only the local flag and the present time decide.
- `Date::yearDay`, dates copied from dates, detection of a format from a text; formats with two-digit years, twelve hours or tenths are read back directive by directive only.
- DateText.CopyThroughText: the three formats of the program that tell a whole date; the exceptions that only warn are not modelled.
- DateFormat.ReadZoneBack: the codes of time zones other than GMT's stand for GMT, since their table is not part of this model.
- DateSkips.MissingPartIsSkipped: a question mark after the character that is missing, which takes a character of the text even where a part is skipped, is left out.
- DateFormat.ParseText: one directive is read by a function on values; only the loop over digits and the loop over the format are imperative.
- Codec.Get7BitValueSize: asks for a value below 2^63, since the loop never ends on any other (`SizeLoopEndsExactly`).
- Codec.LongReadBack: the same, since writing such a value never ends.
- Codec.BinaryWriter.Write7BitLongValue: the same.
- Codec.BinaryReader.Read7BitEncoded: bytes past the fifth are lost to the 32-bit modulus, as they are on common machines, where C++ leaves such shifts undefined.
- The other widths of numbers (16, 24 and 64 bits), addresses and random bytes of the binary reader and writer: easier than the ones modelled.
- The events of a connection; to the link a greeting is a frame without handler, with its body.
- Messages broadcast to several servers at once: one message is made for each send.
- ServerLink.LinkIsFaithful: it holds of runs whose deliveries leave no unfinished frame of four bytes or more; what the others do is told by `ServerCuts.AllArrivesExactly`.
- ServerCuts.AllArrivesExactly: frames of 64 KB and more, and greetings whose body repeats their own size, may come out as they were by chance and are left out of the exact condition.
- The handler of a reception cannot replace the buffer it is given.
- The fixed table packets at the head of an MPEG-TS file; metadata tracks; FLV.
- Units of no bytes at all: the code does not add them to the substreams.
- Entries of the database as files; only their order matters here. Spurious wake-ups of the condition variable are part of the wait.
- Whether a thread gets its turn: only whether some run of the threads goes on is told.
- Which peers a relay marks as turn peers, the sending of a packet, and the two mutexes of the relay server.
- Writers that fail, and the writing of the names of publications; data packets, quality of service, flushing, and the `_new` flag of a publication.
- Invoking.LogsAreGood: the log of a listener ends with its subscription, and times are compared between initialisations of its writers, of which a run has one for each listener.
- The handlers' own actions inside a call, such as a listener removed while a packet is passed to it.
- Groups, pools, scripts, options, JSON, XML, SOAP and AMF values.
- SendQueue.BytesLeaveInOrder: one thread sends on a socket; that two do not mix their bytes between the check for an empty queue and the sending is not promised by the code.
- Connecting: the only effect of a connection is that nothing leaves until it is made.
