# A verified model of sing-trusttunnel

A Dafny model of the three parts of sing-trusttunnel that do not depend on the network, with proofs
of what they are for:

* **The link codec** (`tturl/`). A `tt://?` link is unpadded base64url (section 5 of RFC 4648) around
  tag-length-value records whose tags and lengths are the variable-length integers of section 16 of
  RFC 9000. Strings are byte sequences. Base64url (with the line breaks Go's decoder skips), hex, the
  `prefix/mask` notation, the string array, all sixteen tags, defaults, validation and version raising
  are written out. How an address is printed and parsed is a parameter (`AddressCodec`): the laws that
  need it state what they ask of it. The buffer-consuming reader (`LinkReader`) and the growing writer
  (`LinkWriter`) are methods with the loops of the source, proved equal to `ParseLink` and `BuildLink`;
  the laws are about those functions. What those functions are built from is pinned down on its own, in
  the format's own numbers and characters: the letters of base64url bit by bit, the hex digits, the
  bytes of a varint, the tag table, the version byte and what makes a link valid (`LinkFormat`,
  `Base64Url`, `Hex`, `ClientRandom`, `Varint`).
* **The UDP framing** (`packet.go`, `protocol.go`). Headers are written into an array's headroom or
  into one of their own; both are proved to put the same frame on the wire. The laws are about the
  frames.
* **The lifecycle of connections and streams** (`close.go`, `idle.go`, `client.go`, `protocol.go`,
  `healthcheck.go`). `Lifecycle`, `Streams` and `HealthCheck` are transition systems: each section under
  a mutex is one step and each gap between sections a state of the thread inside it, so that a run is
  any interleaving (`Runs`). In `Track` the check and the insertion are two steps with the lock held,
  because the parent's cancellation takes no lock. Dials are followed as events, from the `BeginDial`
  step to the step that yields the connection (`DialRuns`), and every mark a state carries is tied to
  the steps that set it (`LifecycleEvents`). `ClientRuns` is the product of the
  connection lifecycle with any number of streams, and `ClientEvents` finds the run of the connections
  and the run of each stream inside a run of that product. `Connections`, `IdleStreams`, `HttpConns` and
  `ClientObject` are the objects themselves. The tracker, the stream conn and the health-check scheduler
  share their section functions with the transition systems; the idle manager's contracts state its new
  state outright.

Where a law has a side condition, the condition is one a caller can check beforehand. The laws about one
link, one address and one frame hold exactly under theirs; for a whole stream of packets, a truncated
frame and a list of strings the condition is sufficient. Three are worth knowing:

* `Build` accepts a client random prefix or mask of more than 32 bytes although `Parse` refuses it, so
  such a link can be printed but not opened (exactly when: `LinkLaws.RoundTrip`,
  `ClientRandom.ParsePrint`; one such link: `LinkLaws.LongPrefixIsLost`).
* The 16-byte address field cannot tell 0.0.0.1 from ::1, nor an IPv6 address starting with twelve zero
  bytes from an IPv4 one (exactly when: `Ip.ParseBuild`; what arrives instead: `Ip.AddressesCollide`).
* The length field of a packet wraps at 2^32 and the name length at 2^8 (exactly when:
  `PacketSpec.ClientFrameRoundTrip`; what arrives instead: `PacketSpec.WrappedLengthIsLost`,
  `PacketSpec.WrappedNameIsLost`, and inputs for both: `PacketSpec.LengthsDoWrap`). `NewClient`
  truncates the name, so only the first can happen in practice.

## Model

| member | source | states |
|---|---|---|
| Varint.RoundTrip | tturl/varint.go:43-73 | reading a written value returns it and leaves whatever follows untouched, for every value up to 2^62-1 |
| Varint.WriterIsShortest | tturl/varint.go:20-41 | the written form is never longer than any form the reader accepts for that value |
| Varint.ReadExtends | tturl/varint.go:57-73 | a successful read does not look past the integer |
| Varint.PrefixFree | tturl/varint.go:57-73 | no accepted form is a proper prefix of another |
| Varint.ErrorKinds | tturl/varint.go:57-73 | end of input exactly on nothing, unexpected end exactly on a nonempty proper prefix of an encoding, no other error |
| Bits.OrBits | tturl/varint.go:49 | OR as defined here is OR, bit by bit |
| Bits.OrDisjoint | tturl/varint.go:70 | ORing into bits a shift has left clear adds |
| Varint.Tagged | tturl/varint.go:49 | the size code ORed into the top two bits adds to the value, which leaves them clear |
| Varint.ShiftIn | tturl/varint.go:70 | in 64 bits, shifting by a byte and ORing the next one in is arithmetic |
| Varint.ReadStep | tturl/varint.go:64-71 | one turn of the shift-and-OR loop pushes no bit out of 64 and gives the big-endian value one byte longer |
| Varint.Layout | tturl/varint.go:20-55 | the bytes of every encoding: how many, the two size bits, the value big-endian behind |
| Varint.WriteVarint | tturl/varint.go:43-55 | the writing loop appends exactly the encoding, and nothing when the value is too large |
| Varint.ReadVarint | tturl/varint.go:57-73 | the reading loop returns and consumes what the specification of a varint says, errors included |
| Base64Url.EncodeSpellsBits | tturl/url.go:498 | each letter is the one the standard's table has for the next six bits, filled up with zeros at the end, and there are no more than the bits need |
| Base64Url.DecodeAccepts | tturl/url.go:95-99 | line breaks apart, a text is accepted exactly if every letter is in the table and none stands alone at the end |
| Base64Url.DecodeSpellsText | tturl/url.go:95-99 | what is accepted is read six bits a letter by the same table, leftover bits ignored |
| Base64Url.LineBreakIsInvisible | tturl/url.go:95-99 | a line feed or carriage return changes nothing wherever it stands |
| Base64Url.DecodeEncode | tturl/url.go:87-99 | decoding an encoding gives back every byte string |
| Hex.DecodeEncode | tturl/client_random.go:38-61 | hex round trip, and no hex digit is the separator |
| Hex.EncodeIsDigits | tturl/client_random.go:38-47 | two lower-case digits a byte, the high one first |
| Hex.DecodeMeans | tturl/client_random.go:49-61 | a text decodes to exactly the bytes that print as it in lower case |
| Hex.EncodeDecode | tturl/client_random.go:49-61 | printing what was decoded gives the text in lower case |
| ClientRandom.ParsePrint | tturl/client_random.go:15-47 | a printed client random parses to itself exactly within 32 bytes a side, and is refused otherwise |
| ClientRandom.PrintParse | tturl/client_random.go:15-61 | an accepted text prints back in lower case, and its sides fit |
| ClientRandom.ParseMeans | tturl/client_random.go:15-61 | a text is accepted as a value exactly if that has at most 32 bytes a side and prints as the text in lower case |
| ClientRandom.PrintMeans | tturl/client_random.go:38-47 | hex, and the mask in hex behind a slash if there is one |
| Url.SameFieldsSameLink | tturl/url.go:69-85 | a link is determined by its fields, one per tag |
| Tlv.RecordsExact | tturl/url.go:116-132 | the bytes split into records exactly if they are a concatenation of whole records |
| Tlv.ParseMeaning | tturl/url.go:116-251 | parsing succeeds exactly if the bytes split and every value parses, and then assigns record by record |
| Tlv.ParseAppend | tturl/url.go:116-132 | parsing a concatenation is parsing the first part and going on with the second from there |
| Tlv.TagNeedsLength | tturl/url.go:332-342 | a tag without a length, behind any whole records, is an error and not the end of input |
| Tlv.IgnoredRecordIsInvisible | tturl/url.go:344-350 | a record with tag 0x04 or an unknown one at any record boundary changes neither success nor result |
| Tlv.FieldFromOwnRecords | tturl/url.go:134-251 | a field depends on the records of its own tag only |
| Tlv.OrderIndependence | tturl/url.go:134-251 | only the order of records with equal tags matters |
| Tlv.AddressesAppend | tturl/url.go:151-161 | address records append, in order |
| Tlv.LastWins | tturl/url.go:134-251 | of every other tag the last record decides |
| LinkSpec.RecordsSerialize | tturl/url.go:501-551 | serialized records split back into the same records |
| LinkSpec.SerializeSucceeds | tturl/url.go:501-551 | serializing fails exactly on a tag or value too long for a varint |
| LinkSpec.StringsRoundTrip | tturl/url.go:312-330 | every list of strings, empty ones included, survives the string array encoding |
| LinkSpec.StringsNeverGrow | tturl/url.go:312-330 | what a string array reads as never takes more bytes to write |
| LinkLaws.OpenLink | tturl/url.go:87-99 | the reader opens a wrapped payload with the question mark and without |
| LinkLaws.LinkRecordsOk | tturl/url.go:402-499 | the records of a valid link are acceptable exactly if the client random fits and the reparsed addresses can be dialed |
| LinkLaws.LinkRecordsMeaning | tturl/url.go:402-499 | the records of a link spell its fields: none lost, doubled or under another tag |
| LinkLaws.BuildThenParse | tturl/url.go:87-132 | what becomes of every link that can be built: its normal form with reparsed addresses, or a refusal, and exactly when |
| LinkLaws.RoundTrip | tturl/url.go:402-499 | a built link parses to its normal form exactly if its client random fits and its addresses survive their text form |
| LinkLaws.LongPrefixIsLost | tturl/url.go:402-499 | a link with a prefix of 33 bytes that is built, and refused when parsed |
| LinkLaws.ParseThenBuild | tturl/url.go:352-400 | every accepted link can be built again and reparses to the same fields with only the version raised, to 1, or to 2 for a subscription or an auth key |
| LinkLaws.RebuildIsFinal | tturl/url.go:402-499 | one parse-and-build round is a fixpoint |
| LinkLaws.BuildSucceeds | tturl/url.go:402-411 | building fails only on validation or an oversize value |
| LinkFormat.BuiltText | tturl/url.go:498 | a built link is "tt://?" and the payload in base64url |
| LinkFormat.OpenedText | tturl/url.go:87-99 | without "tt://" a text is refused, and behind it one question mark is dropped and no more |
| LinkFormat.AcceptedFields | tturl/url.go:358-389 | every accepted link has a version up to 2, protocol 1 or 2, dialable addresses, and either hostname, username, password and addresses or an "https://" subscription |
| LinkFormat.AcceptedExactly | tturl/url.go:352-389 | a payload of well-formed records is accepted exactly if that holds of what they spell, as that with protocol 1 for none |
| LinkFormat.BuiltExactly | tturl/url.go:358-389 | a link is built exactly if the same holds of it and no record is too long |
| LinkFormat.NothingSet | tturl/url.go:103 | parsing starts with no field set |
| LinkFormat.WrittenVersion | tturl/url.go:391-411 | the first record is the version: the one asked for, at least 1, and 2 exactly if asked for or needed by a subscription or an auth key |
| LinkFormat.TextTags | tturl/url.go:34-51 | tags 1, 3, 5, 6, 8, 12 and 14 are the strings and the certificate |
| LinkFormat.ByteTags | tturl/url.go:134-251 | tags 0, 7, 9 and 10 are single bytes, with the values each allows |
| LinkFormat.AddressTag | tturl/url.go:151-161 | tag 2 is an address, accepted if it can be dialed, and appended |
| LinkFormat.NotationTags | tturl/url.go:134-251 | tags 11 and 15 are the client random and the auth key |
| LinkFormat.NotationTagsOnly | tturl/url.go:134-251 | and accept nothing that does not print back |
| LinkFormat.ListTag | tturl/url.go:312-330 | tag 13 is the list of name servers |
| LinkFormat.ListMeans | tturl/url.go:529-546 | a list is its items one after the other, each behind its length |
| LinkFormat.OtherTags | tturl/url.go:245-248 | tag 4 and all above 15 are skipped |
| LinkFormat.OmittedIfDefault | tturl/url.go:402-499 | a field is left out exactly if parsing nothing would give it |
| LinkFormat.RecordsPerField | tturl/url.go:402-499 | one record a field and one an address |
| LinkFormat.RecordOrder | tturl/url.go:402-499 | the order of the tags in a built link |
| LinkReader.ReadTlvLength | tturl/url.go:332-342 | reads a length that what is left can satisfy, or says why not |
| LinkReader.ReadTlvBytes | tturl/url.go:296-310 | consumes one length-prefixed value |
| LinkReader.ReadTlvFixedBytes | tturl/url.go:277-294 | accepts the expected length only |
| LinkReader.ReadTlvByte | tturl/url.go:269-275 | a one-byte value, and nothing else |
| LinkReader.ReadTlvStringArray | tturl/url.go:312-330 | the nested loop reads exactly the list the value spells, or fails |
| LinkReader.ParseTextTag | tturl/url.go:134-251 | the string tags assign their own field |
| LinkReader.ParseByteTag | tturl/url.go:134-251 | version, protocol and the flags check their byte and assign it |
| LinkReader.ParseNotationTag | tturl/url.go:134-251 | addresses, the client random and the key go through their notations |
| LinkReader.SkipTlv | tturl/url.go:344-350 | consumes the value and changes nothing |
| LinkReader.ParseTag | tturl/url.go:134-251 | the dispatch assigns a record with this tag, or fails leaving the link as it was |
| LinkReader.ParseTlv | tturl/url.go:116-132 | the record loop terminates and computes the parse of the whole buffer |
| LinkReader.Parse | tturl/url.go:87-114 | returns what the specification of a link says, for every text |
| LinkWriter.StringArrayLength | tturl/url.go:530-541 | the first loop computes the length of what the second writes |
| LinkWriter.WriteStringArray | tturl/url.go:542-546 | the second loop appends the encoding of the list |
| LinkWriter.WriteTlv | tturl/url.go:501-551 | appends one encoded record, or fails on an oversize one |
| LinkWriter.WriteAddresses | tturl/url.go:402-499 | the address loop appends one record an address |
| LinkWriter.Build | tturl/url.go:402-499 | returns the wrapped serialization of the link's records in the builder's order, or an error |
| Ip.FieldBytes | protocol.go:46-53 | twelve zero bytes before an IPv4 address, an IPv6 address as it is |
| Ip.FieldFamily | protocol.go:35-44 | a field is IPv4 exactly if twelve zeros stand before anything but 0.0.0.1 |
| Ip.BuildParse | protocol.go:35-53 | padding a parsed 16-byte field gives it back |
| Ip.ParseBuild | protocol.go:35-53 | an address survives the field exactly if it is neither 0.0.0.1 nor an IPv6 address with twelve zero bytes other than ::1 |
| Ip.AddressesCollide | protocol.go:35-53 | 0.0.0.1 is read as ::1, an IPv6 address behind twelve zeros as the IPv4 one, and a zone is lost |
| PacketSpec.TruncateAppName | packet.go:17-22 | the first 255 bytes, or the whole name when it has no more |
| PacketSpec.ClientFrameRoundTrip | packet.go:133-182 | a frame to the server is read back whole and alone exactly if name and total fit their fields and the buffer has room |
| PacketSpec.ServerFrameRoundTrip | packet.go:275-317 | the same for a frame to the client |
| PacketSpec.ClientFrameBytes | packet.go:133-166 | a frame to the server byte by byte |
| PacketSpec.ServerFrameBytes | packet.go:275-300 | a frame to the client byte by byte |
| PacketSpec.ReadFieldsFromClient | packet.go:238-273 | which bytes a received packet's address, port and payload are, whatever stands in the source fields |
| PacketSpec.ReadFieldsFromServer | packet.go:109-131 | the same on the client's side |
| PacketSpec.EndsFromClient | packet.go:238-273 | a stream that ends between packets, in a header, in a name or in a payload, a wrong length and a small buffer each have their own error, exactly then |
| PacketSpec.EndsFromServer | packet.go:109-131 | the same on the client's side |
| PacketSpec.WrappedLengthIsLost | packet.go:133-182 | a frame whose total just wraps the length field is refused as invalid |
| PacketSpec.WrappedNameIsLost | packet.go:133-182 | a name of 256 bytes, with room for it, arrives as part of the payload |
| PacketSpec.LengthsDoWrap | packet.go:238-273 | an input for each of the two |
| PacketSpec.ReadsStayAligned | packet.go:109-131 | a successful read takes the length field and exactly what it counts |
| PacketSpec.TruncatedFrameFails | packet.go:238-273 | a frame to the server cut anywhere is an error |
| PacketSpec.TruncatedServerFrameFails | packet.go:109-131 | a frame to the client cut anywhere is an error |
| PacketSpec.ClientStreamRoundTrip | packet.go:238-273 | any number of packets to the server arrive in order with the same payloads and ports, consuming the stream exactly |
| PacketSpec.ServerStreamRoundTrip | packet.go:109-131 | the same towards the client |
| PacketSpec.DistinctArriveUnchanged | protocol.go:35-53 | the packets arrive unchanged exactly if every address survives the 16-byte field |
| PacketIO.PacketWriteBuffer | packet.go:42-47 | a fresh buffer with the payload behind the asked-for headroom |
| PacketIO.FillClientHeader | packet.go:161-166 | exactly the header's bytes are written, to the last one |
| PacketIO.FillServerHeader | packet.go:296-300 | the same for the server's header |
| PacketIO.InPlaceLayout | packet.go:153-160 | header written in the headroom and payload behind it read as one frame, the rest unchanged |
| PacketIO.PrepareClientHeader | packet.go:145-166 | in the headroom or apart, header and payload read the same and only headroom is overwritten |
| PacketIO.PrepareServerHeader | packet.go:280-300 | the same for the server's header |
| PacketIO.WritePacketToServer | packet.go:133-182 | whatever the headroom, one client frame goes on the wire, to the target's own address or else to what its own name resolves to, and the payload bytes stay where they are |
| PacketIO.WritePacketToClient | packet.go:275-317 | the same towards the client, for IP sources only |
| PacketIO.ReadPacketFromClient | packet.go:238-273 | reads one packet into the buffer and leaves the stream as the specification says |
| PacketIO.ReadPacketFromServer | packet.go:109-131 | the same on the client's side |
| LifecycleProof.StepKeeps | close.go:39-138 | every step of every thread keeps the whole invariant |
| LifecycleRuns.ConnectionsNeverLeak | close.go:87-138 | in every state of every run a connection given to Track is tracked, closed, or in the care of an unfinished call; with none, tracked exactly if accepted and open |
| LifecycleRuns.QuiescentTracker | close.go:49-100 | with no call running the tracker holds exactly the accepted connections still open |
| LifecycleRuns.CloseClosesAll | close.go:49-67 | when a close is over, and ever after, every connection tracked at its section is closed |
| DialRuns.CapturedAtBegin | close.go:39-47 | a dial under way holds the context that was the tracker's at its BeginDial |
| DialRuns.CloseExcludesEarlierDials | close.go:39-58 | the connection of a dial begun before a close is never tracked after it, whether it was yielded before the close or after |
| DialRuns.TrackedIsCurrent | close.go:87-100 | every tracked connection comes from a dial since whose BeginDial no close has passed its section |
| DialRuns.LaterDialsPass | close.go:22-58 | with the client alive, Track accepts a dial's connection exactly if no close came since its BeginDial, and otherwise goes on to close it |
| DialRuns.CloseCancelsDialsUnderWay | close.go:39-58 | the context a dial under way captured is canceled by the first close after its BeginDial, and with the client alive by nothing else |
| DialRuns.LastReleaseDropsConnections | idle.go:34-56 | the last release without a keep flag force-closes, and every connection tracked afterwards comes from a dial begun after that |
| DialRuns.CloseIdleDropsConnections | idle.go:44-56 | the same after a CloseIdle with no stream open, whatever the keep flag |
| LifecycleRuns.ClientCloseIsFinal | client.go:281-286 | after Client.Close's section nothing is ever tracked or inserted again, raced checks included |
| LifecycleRuns.StreamCountExact | idle.go:25-42 | the count is the number of handles not released, hence never negative |
| LifecycleRuns.IdleCloseOnlyWhenIdle | idle.go:34-56 | while the idle manager force-closes no stream is open, none opens and none is released |
| LifecycleEvents.IdleCloseHasCause | idle.go:34-56 | every forced idle close has a cause of its own: CloseIdle with no stream open, or the release of the only live stream, opened by an AddStream that was not to keep the session, with no SetKeep(true) in force |
| LifecycleEvents.HandleMeans | idle.go:25-32 | a handle is there exactly if its AddStream was, and released exactly if its release was |
| LifecycleEvents.KeepSessionMeans | idle.go:25-31 | and keeps the session exactly if that AddStream said so |
| LifecycleEvents.ParentErrMeans | client.go:281-282 | the parent context has an error exactly if the client or its owner canceled it |
| LifecycleEvents.ConnectionMarks | close.go:87-138 | a connection is there, accepted, flagged or closed exactly if it was dialed, inserted, marked by a Close, or had Conn.Close called |
| LifecycleEvents.SelfCloseCloses | close.go:127-133 | the first Close of a connection is at work until it has closed it |
| LifecycleEvents.CallsBegin | close.go:39-58 | dials and closes wait for nothing but the tracker's lock |
| LifecycleEvents.StreamCallsBegin | idle.go:19-56 | streams wait for nothing but the idle lock |
| LifecycleEvents.DialsEnd | client.go:157-165 | a dial under way may fail, or yield any new connection |
| LifecycleEvents.ThreadsGoOn | close.go:39-138 | while the tracker's lock is free every thread has a step of its own to take |
| LifecycleRuns.KeepMeans | idle.go:19-23 | the keep flag is what the last SetKeep said |
| LifecycleRuns.LaterCloseDoesNothing | close.go:127-138 | after one Close of a connection, its own or the tracker's, its Close changes nothing |
| LifecycleRuns.LocksAreReleased | close.go:49-73 | whoever holds a lock can always take its next step |
| Streams.StepKeeps | client.go:200-243 | every step of goroutine, caller and closers keeps the stream's invariant |
| Streams.ReleasedExactlyOnce | client.go:200-234 | one release and one cancellation a stream, done by the time its failure is handled, a Close returned or Dial reported an error |
| Streams.BodyNeverLost | protocol.go:69-102 | once the goroutine and one Close are done the body is closed, and never before a Close |
| Streams.WaitCreatedMeansBody | protocol.go:85-88 | waitCreated returns nil exactly if the body was installed |
| Streams.CloseFirstFailsWait | protocol.go:69-102 | if a Close was first, waitCreated returns an error for good |
| Streams.StreamMarks | protocol.go:69-102 | created, closed, the finished Closes, the release and the closing of the body each say exactly what has happened |
| Streams.CloseComesToEnd | protocol.go:90-102 | a Close that has begun is under way until it has ended |
| Streams.CallsBegin | client.go:214-243 | what the transport, the caller and the holder of the conn may do, and exactly when |
| Streams.SuccessMeansEstablished | client.go:214-243 | openStream succeeds only after a GotConn or a successful round trip, and fails only after its caller gave up or a round trip that failed with no GotConn before |
| Streams.CloseProgresses | protocol.go:90-102 | in every state every Close under way, or the run-once closure it waits for, has a step to take that leaves it less to do, at most six; none waits for the round trip |
| Streams.CloseNeverSetBack | client.go:200-206 | nothing else that runs gives a Close under way more to do |
| Streams.WorkerProgresses | client.go:219-237 | after the round trip the goroutine, or the run-once closure it waits for, always has such a step too |
| Streams.WorkerNeverSetBack | client.go:219-237 | nothing sets the goroutine back |
| Streams.CallerProgresses | client.go:238-243 | openStream's caller can always leave on its context, and on the outcome once it is reported |
| ClientRuns.StepKeeps | client.go:194-279 | any interleaving of streams and connections keeps both invariants and ties each stream to its handle |
| ClientRuns.CountIsOpenStreams | client.go:200-206 | the count is the number of streams not yet released plus the health checks under way |
| ClientRuns.NothingLeftCounted | client.go:246-279 | once every stream failed, was closed or was never returned, the count is zero again |
| ClientRuns.IdleCloseSparesStreams | idle.go:34-56 | an idle force-close never happens under a stream that has not canceled and released |
| ClientRuns.FinishProgresses | client.go:202-206 | once begun, the run-once closure or the holder of a lock it waits for always has a step to take |
| ClientEvents.LifeRun | client.go:194-331 | what a client does outside its streams is a run of the connection lifecycle, so that all of `LifecycleRuns` and `DialRuns` holds of it |
| ClientEvents.StreamRun | client.go:194-244 | what happens to one stream of a client is a run of `Streams`, so that all of `Streams` holds of it |
| ClientEvents.OpenMeansEstablished | client.go:214-243 | whatever else the client does, openStream succeeds only on a connection got for that stream or its own successful round trip |
| ClientEvents.FinishedMeansClosed | idle.go:34-56 | the run-once closure of the last stream, with neither keep flag set, returns only after a force-close that its release set off has closed every connection tracked then |
| HealthCheck.StepKeeps | healthcheck.go:24-82 | every step keeps the timer's invariant |
| HealthCheck.ChainStaysAlive | healthcheck.go:24-82 | armed means started, started means armed or a check under way; with none, armed and started are the same |
| HealthCheck.AlwaysAStep | healthcheck.go:67-82 | while started there is always a step the scheduler can take by itself |
| HealthCheck.StartedMeans | healthcheck.go:24-57 | started exactly if the last Start is later than the last Stop, for every run |
| HealthCheck.StopIsFinal | healthcheck.go:47-57 | after a Stop without a later Start the timer is never armed and never fires, whatever checks were under way |
| HealthCheck.FiringNeedsStart | healthcheck.go:24-65 | the timer fires only while some Start has not been stopped |
| HealthCheck.ProbingNeedsStart | healthcheck.go:67-73 | a fired check goes on to probe exactly if some Start has not been stopped by the time it looks, and ends otherwise |
| HealthCheck.FiringStartsCheck | healthcheck.go:59-72 | the timer fires exactly while armed, disarms and starts one check |
| HealthCheck.CallsBegin | healthcheck.go:24-57 | Start, Stop, Postpone and a cancellation can come at any moment and leave the checks alone |
| HealthCheck.CanceledMeans | client.go:281-282 | the client counts as canceled exactly if it was |
| HealthCheck.LookingDecides | healthcheck.go:77-81 | a check goes on to stop exactly if the client is canceled, else to postpone |
| HealthCheck.PostponingArms | healthcheck.go:24-63 | after a Start or any Postpone, a check's own included, the timer is armed exactly if the scheduler is started |
| HealthCheck.LiveClientIsNotStopped | healthcheck.go:76-81 | a check stops the scheduler only if the client is canceled |
| HealthCheck.CanceledCheckStops | healthcheck.go:74-82 | a check under way when the client is canceled leaves the scheduler stopped |
| HealthCheck.DisabledIsInert | healthcheck.go:17-27 | a disabled scheduler never fires and runs no check |
| Connections.ConnTracker.constructor | close.go:30-37 | a tracker starts empty, its context canceled exactly if its parent is |
| Connections.ConnTracker.BeginDial | close.go:39-43 | a dial captures the tracker's current context |
| Connections.ConnTracker.Untrack | close.go:69-73 | takes out one connection and nothing else |
| Connections.ConnTracker.TakeAll | close.go:50-58 | the critical section of Close: old context canceled, a new one derived, everything taken out |
| Connections.ConnTracker.Close | close.go:49-67 | every connection taken out is closed, in whatever order the map yields them, and the tracker stays valid |
| Connections.TrackedDial.Track | close.go:87-100 | accepts exactly under a live context, which is then the current one; a refused connection is closed |
| Connections.TrackedConn.Close | close.go:127-133 | the first close untracks and closes, any later one changes nothing |
| Connections.TrackedConn.CloseFromTracker | close.go:135-138 | marks and closes |
| IdleStreams.Release.Run | idle.go:29-42 | counts once however often it runs, and force-closes exactly at zero with no keep flag |
| IdleStreams.IdleManager.AddStream | idle.go:25-32 | one more stream and one fresh handle |
| IdleStreams.IdleManager.ReleaseStream | idle.go:34-42 | one handle less, and every tracked connection closed exactly if it was the last and nothing keeps them |
| IdleStreams.IdleManager.CloseIdle | idle.go:44-56 | closes every connection exactly if no stream is open |
| IdleStreams.IdleManager.SetKeep | idle.go:19-23 | sets the flag and nothing else |
| HttpConns.Finish.Run | client.go:202-206 | cancels the request and releases the handle once, and closes every tracked connection exactly if that was the last and nothing keeps them |
| HttpConns.HttpConn.SetUp | protocol.go:69-83 | installs the body if the conn is open, closes it if it came too late |
| HttpConns.HttpConn.WaitCreated | protocol.go:85-88 | no error exactly if there is a body |
| HttpConns.HttpConn.Close | protocol.go:90-102 | runs the hook and closes writer and body; the handle is released afterwards, and if it was the last and nothing keeps them every tracked connection is closed |
| ClientObject.HealthCheckScheduler.Start | healthcheck.go:24-32 | started and armed; nothing on a nil scheduler |
| ClientObject.HealthCheckScheduler.Postpone | healthcheck.go:35-45 | armed again if started |
| ClientObject.HealthCheckScheduler.Stop | healthcheck.go:47-57 | neither started nor armed |
| ClientObject.Client.Close | client.go:281-295 | nothing tracked, everything tracked before closed, every context a dial may hold canceled, the health check stopped |
| ClientObject.Client.ResetConnections | client.go:297-300 | everything closed, and later dials refused only if the client is closed |
| ClientObject.Client.SetKeepIdleConnections | client.go:302-310 | switches keeping and the health check together, and closes idle connections when switched off |
| ClientObject.Client.BeginStream | client.go:194-207 | one handle a stream, with the caller's keep-session flag, held by the close hook of its conn |
| ClientObject.Client.CheckHealth | client.go:316-331 | afterwards the count and the handles are as before, the next check is put off, and every connection is closed exactly if nothing is open or kept |
| ClientObject.Client.TimerFires | healthcheck.go:67-82 | changes nothing at all if stopped, armed again if the client lives, stopped if it is canceled |

## Left out

- TLS, ALPN, HTTP/2, HTTP/3 and quic-go (`quic.go`, `quic_stub.go`, `NewClient`'s transports): a round trip is a step that ends in a body or an error, a dial one that yields a connection or fails.
- The two ends of a stream's pipe, closed with the error when a round trip fails, and the body of a response that is not a 200, closed on the spot: such a response is a failed round trip.
- The round trip inside `ClientObject.Client.CheckHealth`: the object makes the calls around it; that a check counts as a stream while it waits is `ClientRuns.CountIsOpenStreams`.
- `service.go`, `icmp.go` and `cmd/`: dispatch, fixed-size records and plumbing, which would add easy members only.
- The text form of addresses: `M.Socksaddr` is not part of this model beyond its fields; `AddressCodec` prints, parses and validates as it likes, and `LinkLaws.ParseThenBuild` asks that an address accepted from a text no longer than 2^62-1 bytes, as all record values are, prints to such a text that parses back to it.
- Connections.ConnTracker.BeginDial: the dial's own context, which the derived context's cancellation cancels from a goroutine of its own, is not modelled; `DialRuns.CloseCancelsDialsUnderWay` says when that goroutine is set off, and a dial may fail at any time.
- The zero `netip.Addr`: a resolver that returns it without an error makes the address padding panic; resolved addresses here are IPv4 or IPv6, zone-free.
- Error texts: errors are told apart only as end of input, unexpected end and everything else.
- The sizes of Go's slices: lengths are unbounded naturals, so a length above 2^62-1 is refused by the varint writer rather than impossible; `int` is taken to be 64 bits wide. Nil and empty slices are the same.
- Partial writes: a wire takes a write whole or fails it, so a failure between header and payload is not told apart.
- The library's buffers (`buf.Buffer`, `rw.SkipN`, `io.ReadFull`): their documented behaviour is written into `Buffers` and `PacketIO`; a skipped name cut short reads as end of input.
- The errors of the connections a close closes, and how often a connection is closed: at least once is proved, the code allows twice.
- `closeIdleLocked`'s call into the round tripper while streams are open: it is the transport's own.
- Blocking: a thread that waits is one that cannot take its step; fairness, and so that a step that can be taken is taken, is not modelled.
- The moment between `cancel()` and `release()` in `finish`: one step here, as nothing that is modelled looks in between.
- The objects (`Connections`, `IdleStreams`, `HttpConns`, `ClientObject`) run one call at a time; interleavings are the transition systems' part, and a parent context's cancellation reaches its children only there.
- Wall-clock time: a timer is armed or not, and an armed one may fire at any moment.
