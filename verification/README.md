# A verified model of the GPS gateway's device side

The gateway accepts TCP connections from GPS trackers of three families (GT06,
GPS103 and Teltonika), cuts each byte stream into frames, decodes them, writes
positions to a database, acknowledges what it took and sends commands back.
This project models that path in Dafny and proves what it promises: over every
byte string, every way a network may cut it, every interleaving of the
connection handlers and every pattern of lost packets and failed writes.

Code that changes state step by step is a `class` or a `method` here, proved
against a function; the promises are lemmas about that function. What several
handlers do at once is a state machine whose steps are the stretches between
two `await`s, and a promise about it is a lemma about every run.

## Files

| file | contents |
|---|---|
| `Common.dfy`, `Bytes.dfy` | shared names; byte strings and big-endian integers |
| `Crc.dfy` | both checksums, as the source's loops, as linear maps on 16 bits and as division by the generator polynomials |
| `Framing.dfy` | what the three stream framers share: chunking independence, splitting streams of whole frames |
| `Gt06.dfy`, `Location.dfy` | GT06 framer, acknowledgements, commands, the position fields |
| `Gps103.dfy`, `UtcTime.dfy` | GPS103 framer; rebuilding UTC from local time and UTC time of day |
| `Teltonika.dfy`, `TeltonikaLayout.dfy`, `TeltonikaReader.dfy`, `TeltonikaStream.dfy` | AVL concrete syntax with printer and parser, where every field lies by offset, the imperative reader, framer and encoder |
| `Detect.dfy`, `Server.dfy` | family detection, the read loop of one connection |
| `Tracking.dfy` | the single-statement position write against the steps it replaced; retries |
| `Delivery.dfy` | the Teltonika acknowledgement protocol: device queue, lossy link, gateway, tables |
| `StatusCache.dfy` | ignition and last-seen caches |
| `DeviceLookup.dfy`, `Logins.dfy` | allowlist check and racing auto-registration; lookups and connection handlers together |
| `Registry.dfy` | the two registry maps |
| `Connections.dfy`, `ConnectionSafety.dfy`, `Teardown.dfy`, `Isolation.dfy` | all handlers interleaved: slots, registry, attribution, teardown, family isolation |
| `ConnectionProgress.dfy` | what those handlers achieve: logins taken, frames accepted, rows written, commands sent, connections ended |
| `Scenarios.dfy` | runs from the start in which the hypotheses of those results fail |
| `Poller.dfy` | the GPS103 poller and its rate |

`dafny verify dfyconfig.toml` checks everything.

## Findings

Where a promise does not hold of the code as it stands, the code was kept, and
the project proves when it does hold.

- With the idempotent statement two different positions of one device that
  carry the same event time are both reported stored, and the second has no
  row (`Tracking.SameInstantLosesPosition`). A committed position has its own
  row exactly when no other row came first at its device and event time
  (`Tracking.OwnRowThere`, `Delivery.OwnRowDelivered`); a device whose records
  all have different times loses none (`Delivery.DistinctTimesKeepRows`).
- Without the idempotent statement, which is the default, an ambiguous commit
  and a resend leave two rows (`Tracking.ResendDuplicates`). The history keeps
  one row per device and event time exactly if it had so before and no commit
  repeats a key (`Tracking.UniqueUnlessRepeated`, `Delivery.UniqueUnlessResent`).
- The single-statement position write judges movement on the speed rounded to
  two decimals, the steps it replaced on the raw speed. They agree exactly when
  the device is unassigned, or the speed is not in (0, 0.005]
  (`Tracking.StatementMatchesSteps`). No handler passes such a speed: GT06 and
  Teltonika speeds are integers and GPS103 rounds to two decimals; and nothing
  calls the separate steps any more.
- An acknowledgement of a GT06 frame is itself a frame only if the frame is at
  least six bytes long, so that it can hold a serial number (`Gt06.AckEchoes`).
- Behind noise without a header pair of its own, a GT06 frame is found exactly
  if the noise does not end in the byte the frame starts with
  (`Gt06.FrameReached`). A stray `0x78` makes the framer hand out 125 bytes as
  one frame with the true one inside (`Gt06.StrayHeaderByteLosesFrame`,
  `Gt06.LostFrame`).
- The two registry maps always agree. In a run in which each socket keeps to one
  IMEI they are inverse to each other (`Teardown.MapsInverse`); that is enough
  but not needed, since they may become inverse again. Exactly which
  registrations keep them so is in `Registry.RegisteredInverse`, and a socket
  with two IMEIs can break it (`Registry.SecondLoginBreaksInverse`).
- A socket that logs in under two IMEIs leaves an entry that holds its closed
  writer (`Scenarios.SecondImeiLeavesEntry`). A teardown does so if and only if
  the connection held an entry other than the one taken down
  (`Teardown.LeavesEntryExactly`).
- Two overlapping status refreshes of one device write the same ignition twice
  (`StatusCache.OverlapRepeatsWrite`). As long as those of one device do not
  overlap, whatever other devices do meanwhile, each writes what it would have
  written alone (`StatusCache.SerialWrites`).
- The teardown's ownership check and its removal are separated by an await. The
  removal costs another connection its entry if and only if the connection torn
  down is superseded at that moment (`Teardown.RemovalHitsOtherExactly`); it
  becomes superseded exactly by a step that logs another connection in under
  its IMEI (`Teardown.SupersededByLogin`) and stops being so when that entry
  goes away again. Such a run exists (`Scenarios.LateLoginLosesEntry`).
- If that write raises, the slot is never released: the counter equals the
  running handlers plus those (`Connections.SlotsConserved`). In a run with one
  connection it ends at one with no handler left
  (`Scenarios.RaisingWriteLeaksSlot`).
- Zones outside (-12 h, +12 h] of UTC are rebuilt on the wrong day
  (`UtcTime.FarZonesMisread`).
- At-least-once delivery needs a device that waits for the answer under way
  before it resends on the same connection (`Delivery.EagerResendLosesRecord`).
- The poller writes to whatever connection holds the IMEI when its turn comes,
  so its request is in that connection's format exactly while the IMEI belongs
  to a GPS103 device (`Isolation.PollInFormat`). In a run where the device
  reconnects as a GT06 device after its selection, it is written a GPS103
  command (`Scenarios.PollGoesAstray`). Operator commands check first and need
  no such hypothesis (`Isolation.CommandsKeepToTheirFamily`).
- `docs/architecture.md`, `docs/protocols.md` and parts of the repository's
  README describe an older threaded version; the model follows the code.

## Model

| member | source | states |
|---|---|---|
| Crc.Crc16Ibm | parsers/teltonika_parser.py:132-139 | the loop computes CRC-16/ARC as a fold over the bytes |
| Crc.Crc16X25 | parsers/v5_parser.py:4-23 | the loop computes CRC-16/X-25 as a fold over the bytes |
| Crc.BitsValue | parsers/teltonika_parser.py:136 | a byte enters the register with its own value |
| Crc.Shift8LinearInjective | parsers/teltonika_parser.py:137-138 | the eight shifts of one byte are linear over XOR and injective on 16 bits, for any polynomial of that degree |
| Crc.ShiftAfterUnshift | parsers/teltonika_parser.py:138 | one shift is onto: every register value is reached, from the value the inverse step gives |
| Crc.TableForm | parsers/v5_parser.py:16-20 | the eight shifts equal the table-driven update of RFC 1662, appendix C.2 |
| Crc.FoldInjective | parsers/v5_parser.py:13-20 | over equal data, different starting registers end in different registers |
| Crc.DetectsAdjacentDamage | parsers/teltonika_parser.py:132-139 | changing one byte or two adjacent bytes always changes the checksum |
| Crc.ChecksumsDivide | parsers/v5_parser.py:13-23 | each checksum is the remainder of the message, lowest bit of a byte first, by its generator polynomial (x^16 + x^15 + x^2 + 1 from zero, x^16 + x^12 + x^5 + 1 from all ones and inverted), read from the other end |
| Crc.ArcCheckValue | parsers/teltonika_parser.py:132-139 | the checksum of "123456789" is the published 0xBB3D |
| Crc.X25CheckValue | parsers/v5_parser.py:4-23 | the checksum of "123456789" is the published 0x906E |
| Framing.ScanLater | tcp_server.py:126-154 | what one call of a framer handed out stays; later calls depend only on its remainder |
| Framing.ChunkingIndependence | tcp_server.py:126-154 | however a stream is cut, the pieces yield the frames and remainder of one call on the whole stream; a call raises exactly when the whole stream is refused or some call leaves more than the limit |
| Framing.ScanUnits | tcp_server.py:126-154 | a stream of whole frames followed by anything splits back into exactly those frames |
| Framing.ReachedSplits | tcp_server.py:126-154 | from any offset it looks at, a framer goes on as if the buffer began there |
| Gt06.ExtractPackets | utils/packet_buffer.py:1-64 | the framer's loop terminates and yields what the stepwise definition of the framer yields |
| Gt06.DecideIsFramer | utils/packet_buffer.py:12-62 | the framer always makes progress and later bytes never change its decisions, so chunking independence holds unconditionally |
| Gt06.ScanSound | utils/packet_buffer.py:12-64 | everything handed out is a complete frame, nothing is refused, and what stays buffered is shorter than one maximal frame |
| Gt06.FramesExactly | utils/packet_buffer.py:21-54 | frames are exactly what devices put together: header, content length in one byte or two, content, two bytes to end it |
| Gt06.LosslessSplit | utils/packet_buffer.py:12-64 | complete frames followed by an incomplete one split back exactly |
| Gt06.Resynchronises | utils/packet_buffer.py:58-62 | noise with no header pair visible at any of its positions is skipped without losing the frame behind it |
| Gt06.FrameReached | utils/packet_buffer.py:12-62 | behind noise without a header pair of its own, whatever follows, the scan looks at a frame if and only if the noise does not end in the frame's first byte |
| Gt06.ReachedFrameComesOut | utils/packet_buffer.py:12-62 | a frame behind header-free noise that does not end in its first byte is handed out, and the scan goes on behind it |
| Gt06.StrayHeaderByteLosesFrame | utils/packet_buffer.py:21-32 | a stray 0x78 in front of a short frame makes one wrong frame of 125 bytes with the true one inside |
| Gt06.LostFrame | utils/packet_buffer.py:21-32 | the true frame is then not among the frames handed out, and nothing of it is left in the buffer |
| Gt06.AckEchoes | parsers/v5_parser.py:110-139 | every frame is acknowledged; the answer is a frame exactly if the frame has at least six bytes, and then echoes protocol and serial under a valid checksum, for both header kinds |
| Gt06.CommandBuilder.NextSerial | utils/command_builder.py:9-13 | returns the current serial number and advances it |
| Gt06.CommandBuilder.BuildCommand | utils/command_builder.py:16-37 | builds the frame for the current serial number or fails as the source does (serial exhausted, text not ASCII, text too long), consuming the number either way |
| Gt06.CommandBuilder.BuildAll | utils/command_builder.py:16-37 | a series of calls yields one outcome per text with consecutive serial numbers |
| Gt06.CommandReadsBack | utils/command_builder.py:16-37 | text of up to 243 ASCII characters and a serial number up to 65535 give a complete frame with valid checksum from which both are recovered |
| Gt06.SessionSerials | utils/command_builder.py:9-37 | call k of a session succeeds exactly if its number still fits and its text can be sent |
| Gt06.SerialsDistinct | utils/command_builder.py:9-37 | no two frames of a session carry the same serial number |
| Gt06.OutputReadsBack | utils/packet_buffer.py:12-64 | any mix of acknowledgements and commands is split by the framer into exactly what was written |
| Location.FieldsLie | parsers/v5_parser.py:44-107 | which packets are accepted, and every field from the bytes it lies in, the hemisphere and fix bits one by one |
| Location.LocationReadsBack | parsers/v5_parser.py:44-107 | a location laid out in a packet is decoded to itself, whatever surrounds it, in all hemispheres |
| Location.LocationReprints | parsers/v5_parser.py:44-107 | writing a decoded location back gives the packet's bytes exactly if its spare course bits are clear and zero coordinates count as north and east |
| Location.DecodesAlike | parsers/v5_parser.py:44-107 | two packets with clear spare bits and canonical zero coordinates decode alike exactly when their position bytes are equal |
| Gps103.ExtractMessages | parsers/gps103_parser.py:87-115 | the loop yields the stripped non-empty messages and the remainder, and raises exactly when the remainder exceeds the limit |
| Gps103.DecideIsFramer | parsers/gps103_parser.py:101-108 | the framer always makes progress and later bytes never change its decisions |
| Gps103.StripTrims | parsers/gps103_parser.py:106 | stripping removes white space from both ends and nothing else |
| Gps103.LosslessSplit | parsers/gps103_parser.py:87-115 | messages, however padded, followed by an unfinished one split back exactly |
| UtcTime.OrdinalOrders | parsers/gps103_parser.py:243 | the day count orders the calendar and tells dates apart |
| UtcTime.MinusMinutesCounts | parsers/gps103_parser.py:243 | subtracting minutes yields a valid clock reading exactly that many minutes earlier, across midnight, month and year ends |
| UtcTime.WrapOffset | parsers/gps103_parser.py:235-239 | both loops terminate, for any start, with the offset of the same day position in (-720, 720] |
| UtcTime.ResolveUnique | parsers/gps103_parser.py:233-245 | the result is the one instant with the reported UTC time of day that lies less than 720 minutes ahead of or at most 720 behind the local minute |
| UtcTime.TrueInstantRecovered | parsers/gps103_parser.py:219-245 | for every whole-minute zone in (-720, 720] the true instant comes back |
| UtcTime.FarZonesMisread | parsers/gps103_parser.py:225-239 | for every zone less than a day from UTC the true instant comes back if and only if the zone is in (-720, 720] minutes |
| UtcTime.ResolveUtcTimestamp | parsers/gps103_parser.py:219-245 | parses both fields and resolves them; None exactly if either is malformed |
| UtcTime.LocalReadsBack | parsers/gps103_parser.py:194-205 | every valid date and time of this century, printed with ten or twelve digits, is parsed back |
| UtcTime.LocalAcceptedExactly | parsers/gps103_parser.py:194-205 | a local field is accepted exactly if it is the print of a valid date and time of this century, with seconds or without |
| UtcTime.UtcReadsBack | parsers/gps103_parser.py:208-216 | every valid time of day, printed with any fraction, is parsed back |
| UtcTime.UtcAcceptedExactly | parsers/gps103_parser.py:208-216 | a UTC field is accepted exactly if it is the print of a time of day, alone or followed by a fraction |
| UtcTime.SampleFields | parsers/gps103_parser.py:194-216 | one field of each kind, read out: year first, hours before minutes before seconds |
| UtcTime.FieldsDetermineInstant | parsers/gps103_parser.py:219-245 | the two text fields of a device in a whole-minute zone in (-720, 720] determine the true instant, with or without local seconds |
| Teltonika.ParseInvertsPrint | parsers/teltonika_parser.py:243-316 | decoding an encoded packet of in-range records returns it, for Codec 8 and 8E |
| Teltonika.PrintInvertsParse | parsers/teltonika_parser.py:243-316 | printing what was decoded from any accepted frame gives the same bytes |
| Teltonika.DamageIsDetected | parsers/teltonika_parser.py:288-298 | any change to one byte or two adjacent bytes anywhere in an accepted frame makes parsing fail |
| Teltonika.ArcDetects | parsers/teltonika_parser.py:132-139 | over data that differ in at most two adjacent bytes, equal checksums mean equal data |
| TeltonikaLayout.HeaderLies | parsers/teltonika_parser.py:281-316 | in an accepted frame: zero preamble, length, codec and count in front of the records, the count again and the checksum of the data field behind them, each at its offset |
| TeltonikaLayout.FieldsLie | parsers/teltonika_parser.py:260-278 | every field of record k lies at its offset from where the record begins, which is behind the sizes of those before it |
| TeltonikaLayout.EventLies | parsers/teltonika_parser.py:243-245 | the event id stands right behind those fields |
| TeltonikaLayout.ElementsLie | parsers/teltonika_parser.py:247-251 | the count of each group, and the id and value of each of its elements, lie at their offsets |
| TeltonikaLayout.BlobsLie | parsers/teltonika_parser.py:252-257 | so do id, length and bytes of every variable-length value, which only Codec 8E has |
| TeltonikaReader.Reader.TakeBytes | parsers/teltonika_parser.py:224-230 | returns the next bytes and moves past them, or fails without moving |
| TeltonikaReader.Reader.Uint | parsers/teltonika_parser.py:232-233 | reads the big-endian integer the parser function reads |
| TeltonikaReader.Reader.Sint | parsers/teltonika_parser.py:235-236 | reads the signed integer the parser function reads |
| TeltonikaReader.Reader.ReadIoElement | parsers/teltonika_parser.py:243-257 | fills the dictionary that the element's ordered entries give, leaving the input the parser function leaves |
| TeltonikaReader.Reader.ReadAvlRecord | parsers/teltonika_parser.py:260-278 | reads one record: fields, dictionary and remaining input agree with the parser function, errors included |
| TeltonikaReader.Reader.ReadAvlRecords | parsers/teltonika_parser.py:308 | reads the counted records in order, or fails with the first failing record's error |
| TeltonikaReader.ParseAvlPacket | parsers/teltonika_parser.py:281-316 | for every byte string the imperative parser fails as the parser function does or returns records whose fields are the integers at their offsets in the frame and whose dictionaries hold the last value of each id there |
| TeltonikaReader.FirstRecordLies | parsers/teltonika_parser.py:260-278 | the first record's time, priority, coordinates, altitude, angle, satellites and speed are the integers at offsets 10 to 34 |
| TeltonikaReader.DictionaryLastWins | parsers/teltonika_parser.py:247-256 | an id keeps the value read last, whatever group it came in |
| TeltonikaReader.DecodedPacket | parsers/teltonika_parser.py:281-316 | a printed packet decodes to as many records, each with the fields of the printed one and the last value of each of its ids |
| TeltonikaReader.IgnitionIsLastElement | parsers/teltonika_parser.py:109-115 | a record reports ignition on or off exactly if its last element 239 is a number, and as that number is zero or not |
| TeltonikaStream.ExtractFrames | parsers/teltonika_parser.py:155-196 | the loop yields the frames and remainder of the stepwise definition and raises exactly when that refuses the stream |
| TeltonikaStream.DeciderIsFramer | parsers/teltonika_parser.py:169-194 | the framer always makes progress and later bytes never change its decisions, refusals included |
| TeltonikaStream.LoginReadsBack | parsers/teltonika_parser.py:203-210 | login frames are exactly the prints of fifteen-digit IMEIs, in both directions |
| TeltonikaStream.StreamReadsBack | parsers/teltonika_parser.py:155-316 | a login and packets within the size limit frame and decode back to the IMEI and the packets |
| TeltonikaStream.Ack | parsers/teltonika_parser.py:319-321 | four bytes from which the accepted count reads back |
| TeltonikaStream.EncodeRecord | test/teltonika_fixtures.py:23-61 | the encoder's loops print the record with the element total they count, and raise exactly if some field or count does not fit its width |
| TeltonikaStream.BuildAvlPacket | test/teltonika_fixtures.py:64-73 | the encoder wraps the records between both counts under preamble, length and checksum, and raises exactly if the count or the length does not fit |
| TeltonikaStream.EncodePacket | test/teltonika_fixtures.py:23-73 | encoding records and wrapping them raises exactly if some field, count or length does not fit; otherwise it gives the printed packet with the counted totals, which decodes to those records for a supported codec and timestamps in range |
| TeltonikaStream.EnclosedIsBody | test/teltonika_fixtures.py:64-67 | encoded records between both counts are the data field of the printed packet |
| Detect.RecognisedExactly | protocols/detect.py:32-51 | which greeting opens which family, byte by byte |
| Detect.DetectionIndependentOfCut | protocols/detect.py:32-51 | five bytes decide the family as the whole stream would, except for a would-be Teltonika login, which its framer then refuses without handing out a frame |
| Detect.FamiliesFrame | tcp_server.py:43-47 | each family's extractor is a framer, so the facts about framers hold for all three |
| Server.Extract | tcp_server.py:123-127 | the extractor chosen for a family yields frames and remainder, or raises, as its definition says |
| Server.ReadFirstBytes | tcp_server.py:95-113 | the first bytes are all that the reads so far brought; it stops at the first read that makes them five, or that yields none |
| Server.HandleBatch | tcp_server.py:129-133 | hands frames on until the handler has closed the writer |
| Server.ReadLoop | tcp_server.py:126-154 | the buffering loop hands the handler the frames that feeding the pieces one by one yields |
| Server.HandleDevice | tcp_server.py:95-154 | a connection is a probe, unrecognised, or served with those frames |
| Server.SessionReads | tcp_server.py:95-154 | every sequence of reads has such a point, and an end behind it |
| Server.SessionIgnoresCuts | tcp_server.py:103-154 | the frames a handler sees are those of everything the reads brought, joined, however it was cut; the session is cut off exactly if that stream is refused or overflows, and never for GT06 |
| Server.TeltonikaSession | tcp_server.py:95-154 | a device's login and packets, cut into whatever pieces after the first two bytes, reach the handler as exactly those frames, up to the one at which it closes, without a framer error, and each packet decodes to what was encoded |
| Tracking.CleanedMovement | utils/numeric.py:28-39 | a cleaned speed is positive exactly when the speed exceeds 0.005 |
| Tracking.CleanOnGrid | utils/numeric.py:28-39 | a value already on the decimal grid is kept |
| Tracking.TrackingService.SaveTracking | services/tracking_service.py:10-20 | appends one history row with cleaned values and changes nothing else |
| Tracking.TrackingService.GetVehicleByDevice | repositories/device_repository.py:127-143 | returns the vehicle of the active assignment, if there is one |
| Tracking.AssignedMeansActiveRow | repositories/device_repository.py:127-143 | a vehicle is found exactly if some assignment row of the device has status 1 |
| Tracking.VehicleOfFirstActiveRow | repositories/device_repository.py:127-143 | the vehicle found is the one in the device's first row with status 1 |
| Tracking.TrackingService.UpdateCurrentLocation | services/tracking_service.py:23-48 | upserts the live row with the stored ignition, movement judged on the raw speed |
| Tracking.TrackingService.SaveInSteps | services/tracking_service.py:10-48 | the replaced steps in their order: history insert, vehicle lookup, live upsert if there is a vehicle |
| Tracking.TrackingService.SaveLocation | services/tracking_service.py:61-114 | one statement: history row unless its key is known and the statement is idempotent, live row and True exactly if the device is assigned |
| Tracking.TrackingService.SetIgnition | services/tracking_service.py:172-191 | records the ignition state and touches neither positions nor assignments |
| Tracking.StatementMatchesSteps | services/tracking_service.py:10-114 | with idempotency off the statement has the effect of the separate steps if and only if the device is unassigned or its speed is not in (0, 0.005] |
| Tracking.StatementMatchesStepsOnGrid | services/tracking_service.py:10-114 | for every speed on the 0.01 grid, idempotency off, the statement has the effect of the separate steps |
| Tracking.KeysOfAttempts | services/tracking_service.py:61-67 | with or without the idempotent clause, rows are only added and the keys are those there before or committed at least once |
| Tracking.RowsOfAttempts | services/tracking_service.py:61-67 | the rows are those there before and those of the attempts that commit and, with the clause, are first to claim their key |
| Tracking.ExactlyOnce | services/tracking_service.py:61-67 | under any resends and ambiguous commits there is one row per device and event time, no row already there is altered or removed, the keys are those there before or committed at least once, and each new row is that of the first attempt committed for its key |
| Tracking.OwnRowSaved | services/tracking_service.py:61-67 | one save leaves its own row exactly if the clause is off, its key is free, or that very row is there |
| Tracking.OwnRowThere | services/tracking_service.py:61-67 | over any attempts a committed position has its own row if and only if no other row came first at its device and event time |
| Tracking.SameInstantLosesPosition | services/tracking_service.py:92-94 | of two different positions with one event time both are stored as far as the caller can tell, and the second has no row |
| Tracking.ResendDuplicates | services/tracking_service.py:92-94 | without the idempotent clause a resend after an ambiguous commit duplicates the row |
| Tracking.CommittedInOrder | services/tracking_service.py:92-94 | without the clause the history is extended by the rows of the commits, in their order |
| Tracking.UniqueUnlessRepeated | services/tracking_service.py:92-94 | without the clause the history keeps one row per device and event time if and only if it had so before and no commit's key is in the table or another commit's |
| Tracking.LiveRowIsLastAssigned | services/tracking_service.py:68-88 | over any run the live row is the last position processed while the device was assigned, with that moment's vehicle and ignition |
| Delivery.StoreRecord | services/teltonika_handler.py:209-240 | True exactly if the record was skipped by a rule or stored; a committed one leaves a history row, unless its key is known and the statement idempotent, and the live row of an assigned device, with the record's own values |
| Delivery.RowHoldsExactly | services/teltonika_handler.py:226-234 | the row saved is the one that holds the record's values, in its own integers: coordinates rounded to millionths of a degree, speed and heading in hundredths, and no other |
| Delivery.RecordLeaves | services/teltonika_handler.py:209-240 | which records are skipped, by their values, and what each of the others adds to the history and to the live rows |
| Delivery.HandleRecords | services/teltonika_handler.py:197-203 | the acknowledged count is exactly the length of the prefix dealt with |
| Delivery.JobIsHandlerLoop | services/teltonika_handler.py:197-203 | the state machine's consecutive store steps end with the count and tables of the handler's loop, everything else untouched, and its reply carries that count |
| Delivery.ExchangeAdvances | services/teltonika_handler.py:174-206 | an undisturbed packet and its answer take exactly the records dealt with off the device's queue |
| Delivery.QueueDrains | services/teltonika_handler.py:174-206 | while every write works, a device that waits for its answers gets rid of its whole queue, however long, and the tables are those of its records in their order |
| Delivery.StepKeepsSafe | services/teltonika_handler.py:174-206 | every step of device, link, handlers and database keeps the delivery invariant |
| Delivery.RunsAreSafe | services/teltonika_handler.py:174-240 | in every run each record the device has discarded was stored or deliberately skipped in some delivery of that very record, told apart from equal ones by its place in the log |
| Delivery.Delivered | services/teltonika_handler.py:174-240 | every discarded record, by its place in the log, was skipped by a rule or its event time has a row, without the idempotent clause a row with its own values; the history loses no row and with the clause keeps one per event time |
| Delivery.RowsNotShared | services/teltonika_handler.py:174-240 | without the clause every discarded record that was never skipped has a new row which it shares with no other record, even an equal one |
| Delivery.UniqueUnlessResent | services/tracking_service.py:92-94 | without the clause the history keeps one row per event time exactly in the runs whose commits repeat no key |
| Delivery.OwnRowDelivered | services/teltonika_handler.py:174-240 | with the clause a discarded record that was never skipped has its own row if and only if no other row came first at its event time |
| Delivery.DistinctTimesKeepRows | services/teltonika_handler.py:174-240 | if all records have different and free event times, every discarded record was skipped by a rule or has its own row |
| Delivery.NothingInvented | services/teltonika_handler.py:209-240 | every new row is that of a record the device recorded and some visit committed, on old connections too |
| Delivery.EagerResendLosesRecord | services/teltonika_handler.py:197-203 | a device that resends with an answer under way discards a record nobody saw |
| StatusCache.SortKeeps | services/teltonika_handler.py:252 | the sort is a permutation in descending time order |
| StatusCache.NewestReportFound | services/teltonika_handler.py:251-255 | the ignition used is that of the latest reporting record, the first in packet order among equals |
| StatusCache.NoReport | services/teltonika_handler.py:251-255 | a packet yields no ignition exactly if none of its records reports one |
| StatusCache.StatusCaches.Forget | services/teltonika_handler.py:146-148 | a login clears both caches of its device and no other |
| StatusCache.StatusCaches.BeginRefresh | services/teltonika_handler.py:249-258 | up to the await, decides on the status write of a packet from the caches as they are |
| StatusCache.StatusCaches.FinishRefresh | services/teltonika_handler.py:258-265 | from the await on, records what was decided in the caches as they are by then |
| StatusCache.StatusCaches.RefreshStatus | services/teltonika_handler.py:243-265 | undisturbed, the two make one refresh |
| StatusCache.SerialRefreshes | services/teltonika_handler.py:243-265 | with refreshes waiting for their writes while other devices' run, and those of one device not overlapping, the caches hold of it what its own events one at a time would leave |
| StatusCache.SerialWrites | services/teltonika_handler.py:243-265 | each such refresh writes what it writes in the device's own run |
| StatusCache.OverlapRepeatsWrite | services/teltonika_handler.py:257-259 | two overlapping refreshes of one device write the same ignition twice |
| StatusCache.IgnitionWrittenExactly | services/teltonika_handler.py:257-261 | a packet writes an ignition state if and only if it reports it and the last one written in its login, if any, was the other |
| StatusCache.IgnitionUpToDate | services/teltonika_handler.py:257-261 | after every packet that reports ignition, the last state written in its login is the one it reports |
| StatusCache.IgnitionWritesAlternate | services/teltonika_handler.py:257-261 | consecutive ignition writes of one login always differ |
| StatusCache.AliveWrittenExactly | services/teltonika_handler.py:263-265 | a packet refreshes the last-seen time if and only if it writes no ignition and the last status write of its login, if any, is 60 s old |
| StatusCache.AliveRefreshesSpaced | services/teltonika_handler.py:263-265 | an alive refresh comes at least 60 s after every earlier status write of the login |
| StatusCache.FreshAfterEveryPacket | services/teltonika_handler.py:257-265 | right after any packet the last status write of its login is less than 60 s old |
| DeviceLookup.DeviceRepository.GetDeviceByImei | repositories/device_repository.py:30-124 | answers an existing row its setup row does not forbid, registers an activated device once, refuses everything else, and refuses on a failing statement |
| DeviceLookup.UndisturbedAnswers | repositories/device_repository.py:30-124 | a lookup with nothing in between gives an allowed IMEI its device, or a new one with its row, and no other IMEI any |
| DeviceLookup.RacingLookupsAgree | repositories/device_repository.py:86-120 | in every interleaving there is at most one row per IMEI and all answers for one IMEI are the same device |
| DeviceLookup.AnswersJustified | repositories/device_repository.py:37-71 | every answer follows a check of that lookup that saw an unforbidden row or an activated setup row |
| Logins.StepKeepsCoupled | services/teltonika_handler.py:135-144 | when every login waits for a lookup run statement by statement, the handlers' view of GpsDevices stays the table's, and each waits for its own IMEI's lookup |
| Logins.JointRunsAreRuns | services/gps103_handler.py:143-153 | every such run is, to the handlers, a run of the connection machine, so all its results hold with real lookups behind the logins |
| Logins.RowsMatchTable | repositories/device_repository.py:37-119 | every row written carries the DeviceId the GpsDevices table has for an IMEI its connection logged in under |
| Logins.LoginDecided | services/teltonika_handler.py:125-144 | a login with nothing in between registers its connection with the device of its IMEI's row, adding one if there is none, if and only if the allowlist lets the IMEI in |
| Logins.LoginsWereChecked | repositories/device_repository.py:37-71 | no connection ever logs in under an IMEI that no allowlist check let through |
| Logins.RegisteredWereChecked | repositories/device_repository.py:37-71 | in every such run the registry holds only IMEIs that some allowlist check let through |
| Registry.DeviceRegistry.RegisterDevice | services/device_registry.py:14-29 | drops the superseded socket's key, then stores entry and key; agreement is kept |
| Registry.DeviceRegistry.UnregisterDevice | services/device_registry.py:32-36 | removes the entry and its socket's key, or nothing; agreement is kept |
| Registry.DeviceRegistry.GetImeiBySocket | services/device_registry.py:39-41 | returns the IMEI stored under the socket's address, whose entry is then at that address |
| Registry.RegisteredInverse | services/device_registry.py:14-29 | registering keeps the maps inverse if and only if the socket has no key yet or one for the same IMEI |
| Registry.UnregisteredInverse | services/device_registry.py:32-36 | unregistering keeps the maps inverse |
| Registry.SecondLoginBreaksInverse | services/device_registry.py:14-29 | a socket with two IMEIs loses its key when the first reconnects elsewhere |
| Connections.SlotsConserved | tcp_server.py:54-70 | in every run the counter stays within 0 and the cap and equals the running handlers plus those whose offline write raised |
| Connections.RepliesFit | services/gps103_handler.py:157-231 | what each family's handler answers its own device with is in that family's format |
| Connections.FormatsDisjoint | services/command_service.py:24-33 | no bytes that may be written to one family's devices, be it an answer, a command or a poll request, are in the format of another |
| ConnectionSafety.StepKeepsSound | tcp_server.py:73-185 | every step of every handler keeps the invariant of registry, handlers and rows |
| ConnectionSafety.KeysNeverStale | services/device_registry.py:14-41 | in every reachable state a running connection's key leads to an IMEI whose entry holds that very connection, never one whose address is reused |
| ConnectionSafety.RowsAttributed | services/gps103_handler.py:139-206 | every row ever written carries the device GpsDevices gives to an IMEI its connection logged in under; one that never logged in wrote none |
| ConnectionSafety.NewRowsFollowLastLogin | services/teltonika_handler.py:174-181 | a new row carries the device of the IMEI its connection logged in under last |
| ConnectionSafety.ImpostorWritesNothing | services/gps103_handler.py:293-316 | a GPS103 message or heartbeat naming another IMEI writes nothing and closes its connection |
| ConnectionProgress.AcceptExactly | tcp_server.py:54-64 | in every run a connection is turned away exactly when as many slots are taken as there are |
| ConnectionProgress.IdentifyExactly | tcp_server.py:115-123 | it is served as the family its first bytes show, if that is enabled, and otherwise closed |
| ConnectionProgress.LoginExactly | services/device_registry.py:14-29 | an allowed login registers the connection under its IMEI with its family and device, drops the key of the connection it supersedes, and changes no other entry |
| ConnectionProgress.RefusalExactly | services/gps103_handler.py:143-153 | a refused login registers nothing and closes the connection, except for GT06 |
| ConnectionProgress.DataFrameExactly | services/gps103_handler.py:293-316 | in every run a data frame closes its connection if and only if the socket has no key or the frame is a GPS103 message naming another IMEI than the last login's; otherwise its rows are written next, under the device GpsDevices gives to that IMEI |
| ConnectionProgress.FrameLeadsToRow | services/gps103_handler.py:200-206 | a frame of the connection's own device is followed, if nothing comes between, by a row for that device |
| ConnectionProgress.WriteRowExactly | services/teltonika_handler.py:174-181 | a row is added behind all others, under the last login's IMEI and its device |
| ConnectionProgress.HeartbeatExactly | services/gps103_handler.py:181-187 | a heartbeat is answered and followed up if and only if it names the IMEI of the last login |
| ConnectionProgress.HeartbeatResumesExactly | services/gps103_handler.py:189-193 | and then recorded for that IMEI's device, unless it was unregistered meanwhile |
| ConnectionProgress.FirstSessionWritesRow | tcp_server.py:95-141 | first bytes of an enabled family, a login let in and one frame can always be taken in turn, and end with the connection registered and one row for its device |
| ConnectionProgress.HandlerEnds | tcp_server.py:160-185 | a handler left to itself ends in at most four steps: slot free, writer closed, its own entry and key gone and marked offline, everything else as it was |
| ConnectionProgress.CommandSentExactly | services/command_service.py:19-38 | an operator command is written to the connection registered for a GT06 IMEI, text and serial number readable from it, and to nobody otherwise |
| ConnectionProgress.TextSentExactly | services/gps103_command_service.py:32-57 | a GPS103 command likewise, naming its IMEI and the code asked for |
| ConnectionProgress.PollSentExactly | services/gps103_poller.py:54-61 | the poller's request goes to whoever is registered for its IMEI at its turn, and asks for the position |
| Teardown.MapsInverse | services/device_registry.py:14-41 | while each socket logs in under at most one IMEI, the maps are exact inverses in every run |
| Teardown.NoEntryOutlives | tcp_server.py:162-185 | while each socket logs in under at most one IMEI, no entry refers to a connection whose teardown has closed the writer, in every run |
| Teardown.LeavesEntryExactly | tcp_server.py:165-178 | in every run a teardown leaves an entry that refers to its connection if and only if the connection held an entry other than the one taken down |
| Teardown.SupersededByLogin | tcp_server.py:165-175 | a connection being written offline becomes superseded exactly by another login under its IMEI meanwhile |
| Teardown.TeardownSparesOthers | tcp_server.py:165-175 | unless another connection logged in under its IMEI during the offline write, a teardown leaves every other connection's entry and key as it was and marks no IMEI offline that another connection holds |
| Teardown.UnsupersededSpares | tcp_server.py:173-175 | the removal of a connection that is not superseded leaves every other connection's entry and key as it was |
| Teardown.SupersededTakesEntry | tcp_server.py:173-175 | a superseded connection's teardown removes the newer connection's entry though that connection stays |
| Teardown.RemovalHitsOtherExactly | tcp_server.py:173-175 | in every run the removal costs another connection its entry if and only if the connection torn down is superseded at that moment |
| Teardown.SupersededEarlier | tcp_server.py:167-178 | a connection superseded before its teardown goes straight to closing its writer |
| Scenarios.LateLoginLosesEntry | tcp_server.py:173-175 | a run from the start in which a live connection ends up unregistered |
| Scenarios.SecondImeiLeavesEntry | tcp_server.py:165-178 | a run from the start in which a connection that logged in under two IMEIs is gone and closed and an entry still holds it |
| Scenarios.RaisingWriteLeaksSlot | tcp_server.py:174-184 | a run from the start after which one slot is counted and no handler runs |
| Scenarios.PollGoesAstray | services/gps103_poller.py:54-61 | a run from the start in which a connection detected as GT06 is written a GPS103 command |
| Isolation.ProtocolIsFamily | tcp_server.py:115-123 | the protocol each frame handler passes to register_device is the family its connection was detected as, so a registry entry always names that family |
| Isolation.FamiliesIsolated | services/gps103_poller.py:51-62 | every answer, command and poll request written to a device socket is in its connection's format, in every run in which no polled IMEI changes family between selection and write |
| Isolation.CommandsKeepToTheirFamily | services/gps103_command_service.py:32-57 | operator commands of both kinds reach only connections of their own family, never a Teltonika device, in every run |
| Isolation.NewSentSound | services/command_service.py:19-38 | what one sending step writes is in the format of the connection it goes to |
| Isolation.PollInFormat | services/gps103_poller.py:54-61 | the poller's write is in its connection's format exactly if the IMEI still belongs to a GPS103 device |
| Poller.DueDevices | services/gps103_poller.py:35-48 | selects every due IMEI once and no other |
| Poller.DueExactly | services/gps103_poller.py:29-47 | due means GPS103 with neither the last stored position nor the last poll within the interval, the moving one after a position with speed and the idle one otherwise |
| Poller.Entry.NotePosition | services/device_registry.py:49-56 | stamps the entry with the time and speed of a stored position |
| Poller.NotedRests | services/gps103_poller.py:29-47 | a tracker whose position was just stored is due again exactly when the interval its speed gives is over |
| Poller.PollOnce | services/gps103_poller.py:51-68 | each IMEI due at the start that the registry still holds at its turn is written to on the entry it has then, exactly those whose socket takes the request are stamped, and the count says how many |
| Poller.PollRate | services/gps103_poller.py:51-62 | successful polls of one registration are at least the moving interval apart, so a window bounds their number, whatever happens between selection and write |

## Left out

- The HTTP command API, health report, console and logging.
- asyncpg, the pool and PostgreSQL: each statement is atomic and may fail before or after its commit.
- Raw-packet sampling, events, alarm tables, the information and configuration decoders.
- Field decoding of GPS103 tracker messages other than the timestamp (keywords, NMEA degrees), and of GT06 login, status and alarm packets other than the fields they share with locations.
- IEEE rounding: coordinates and speeds are exact, rounding is half to even on reals, and GT06 coordinates stay in units of 1/1800000 degree.
- Unicode digits and Python's regular expressions: digits are ASCII digits.
- Wall-clock time in the connection machine: a timeout or a closed read is a step that may happen at any moment.
- The `ip`, `connected_at` and `last_seen` fields in `Registry`; `Poller` models the timing fields.
- Which due IMEIs a pass selects in the connection machine: any GPS103 entries; the rule is in `Poller`.
- Several active assignments of one device: the statement's LIMIT 1 takes the first row.
- Deletion of GpsDevices rows: lookups and attribution assume a row, once there, stays.
- What other tasks store in a registry entry while a pass waits: `Poller.PollOnce` covers entries that come and go during it, `Poller.PollRate` positions stored meanwhile too.
- Delivery.Delivered: assumes the device sends only when nothing it sent on the connection is unanswered, and that the device never drops records on its own.
- The encoder's optional wrong trailing count, which its tests use to build damaged packets.
- Cancellation of a handler task and an exception from accepting a connection.
