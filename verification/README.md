# sockspp: what its DNS codec, its sessions and two of its algorithms keep

This project models three parts of sockspp, a SOCKS5 proxy server in C++, and proves properties of
them. `dafny verify dfyconfig.toml` checks all of it. A `hide` statement at the head of a proof keeps
definitions that the proof does not need from the solver; it assumes nothing.

**The DNS wire codec with name compression** (RFC 1035 sections 2.3.4, 3.1 and 4.1.1 to 4.1.4).
`Octets`, `Names`, `Records` and `Messages` say what octets an encoder appends to those already written
and what a decoder reads at a position. `DnsBuffer`, `RecordCodec` and `MessageCodec` are the classes,
with their arrays, cursor and loops, proved against those functions. The compressing encoder looks for
the rest of a name among all octets written so far, so pointers may lead into header, TTL or length
fields, and the length field of a record is overwritten after pointers into it may exist.
`WireNames`, `WireRecords` and `WireMessages` define names, records and messages once more, as relations on the
octets of a buffer with the numbers of the standard, and prove that the decoder accepts exactly what they say;
`WireLayouts` says the same of what the encoder leaves, and `DnsExchange` of the query and the response.
`NameRoundTrip`, `RecordRoundTrip`, `BackPatching` and `MessageRoundTrip` prove round trips with their
exact conditions, `NameDomain`, `ClosingDots` and `CompressedNames` which texts survive at all, `LinkLoops`
that loop detection is exact, and `ByteAccounting` that an accepted message is used up to the last octet.

**The proxy session and the event loop** (RFC 1928 sections 3, 4, 6 and 7, RFC 1929). `DnsSockets` has the
query and what is taken from a response, on top of the codec. `SessionSpec` says what a session does with
an event, given what the sockets answer. `SessionRuns` lets the poller report any events, at most one for
each socket and poll, possibly out of date, with any answers, and proves an invariant of all runs;
`SessionSafety`, `Destinations`, `Stranded`, `Relay` and `OctetOrigins` draw the consequences,
`SessionOutcomes` and `RelayEvents` say in terms of flags, octets and answers what every event comes to, and
`StaleOctets`, `StrayAnswers`, `HollowAnswers`, `RelayLoss` and `ForeignOctets` build runs, event by event, that
show where the code falls short. `MemoryBuffers`, `Pollers`, `Sessions` and `Servers` are the classes; the server
proves that each of its live sessions is on such a run, that no event reaches a deleted session, that every
other event that is reported is delivered, that each client that wants to connect becomes one session, and that
the poller waits for exactly what the runs of the sessions say (`Rounds`).

**Two algorithms of the bundled argument parser.** `Levenshtein` has the edit-distance table and the
search for the most similar key, `DecimalLiteral` the recognizer of decimal literals and its grammar.

## What the proofs found

The model does what the code does; where that is not what one would expect, the condition is part of
the theorem.

- A name, record or message that ends exactly at the end of the buffer with a compression pointer cannot
  be decoded, because the cursor cannot be set back there (`src/core/src/dnslib/buffer.cpp:207-213`).
  For the same reason a record with RDATA cannot be encoded up to the last octet of a buffer.
- A label with a zero octet can be matched with the placeholder of the length field and is then damaged
  when the field is overwritten (`BackPatching.ZeroOctetLabelIsDamaged`).
- RDATA without octets (an empty TXT or NULL record) is read back as no RDATA.
- SRV and WKS records are never read back: of an SRV target the last character is missing, because it is
  written as one string and read as the labels of a name (`RecordRoundTrip.SrvLost`), and a WKS record is
  read as a plain address.
- Without compression, a dot at the end of a name suppresses the zero octet, and the name cannot be read
  back. With compression, the octets looked for then have no end of their own: behind "a.b" the name "a." is
  written as a pointer that reads as "a.b" (`ClosingDots.ShortNameReadsAsLonger`), and "a.a.a." is a pointer
  to its own start, a loop (`ClosingDots.PointerToOwnStart`). If nothing is found the name is written with a
  zero octet and read back without its dot (`ClosingDots.ClosingDotExact`). The dot is kept only if the pointer
  happens to lead to labels that end in a pointer to the root name (`CompressedNames.DotIsKept`).
- A text with an empty label, such as "a..b", is written without an error and never read back as itself:
  reading stops before that label (`CompressedNames.EmptyLabelReads`).
- A name of 255 octets is written one octet past the scratch array
  (`src/core/src/dnslib/buffer.cpp:334-375`); the model reports that as an error of its own.
- RCODE is encoded but not decoded.
- Greeting and login are read from a block on the stack that is not initialized, and both length checks of the
  login wrap around (`src/server/src/sockspp/server/session.cxx:555-570`). A client that sends one octet three
  times can be let in if the rest still stands in the block (`StaleOctets.NothingSentLetsIn`). The client has
  offered the method exactly if it is found among the octets received, and has sent the user name and
  password exactly if these go beyond the length of the password (`SessionSafety.AuthenticationSafety`).
- The request is read from such a block too, and its length is not looked at. The client has sent the command,
  the address or name and the port exactly if the octets received go to the end of the request: 10 octets for
  an IPv4 address, 22 for an IPv6 address, 7 and the length of a name (`Destinations.DestinationSentExactly`).
- The datagram that a session takes for the answer to its query may come from anyone: its sender, ID, flags and
  question and the owners of its answers are never compared with anything
  (`src/server/src/sockspp/server/dns_socket.cxx:98-157`). Class, type and RDATA of its answers decide
  (`Destinations.OnlyAnswersMatter`). The addresses that are tried are those that it lists for the name in the
  request exactly if no address in it has another owner (`Destinations.AddressesOfTheName`), and a session
  connects to the address of another name (`StrayAnswers.StrayAnswerIsTaken`).
- Sending a reply counts as failed only if no octet could be sent: the result, -1 for an error, is returned as a
  `bool` (`src/server/src/sockspp/server/client_socket.cxx:54`). A UDP association goes on after an error.
- An event ends in undefined behaviour in exactly four cases (`SessionSafety.UndefinedExactly`): a flush that
  sends only part of the scheduled octets takes the rest from a null pointer; a request names a host with
  255 octets; a DNS response has an answer of class IN and type A or AAAA without RDATA, whose null pointer is
  read through (`HollowAnswers.NullRDataIsRead`), or an SRV record without a target; a UDP packet of 11 to
  21 octets announces an IPv6 header, and its rest has a negative length.
- An exception that nothing catches ends the server in exactly these cases (`SessionSafety.ThrownExactly`): a
  DNS response cannot be decoded, a label of the name asked for has more than 63 octets, or a socket cannot
  be opened or asked for its address.
- When both directions of a relay become blocked by events of one poll, the one that is written first
  makes both ends be read again, and octets are lost (`RelayLoss.OctetsCanBeLost`). If the send that follows such
  a read takes some of the scheduled octets but not all, the rest is replaced by what stands at the same places
  of the buffer that was read into, whether it was received or not: octets are passed on that no peer ever sent,
  and more are lost than the lengths show (`ForeignOctets.OctetsNeverReceived`). Octets that were never received
  get there exactly if such a read brings fewer octets than are scheduled (`OctetOrigins.NeverReceivedOnRun`).
  `OctetOrigins.LossesExact` counts both kinds on every run.
- Whether the first connection attempt could be started is ignored when the command is carried out; if it could
  not, a failure is replied and the session stays without a registered remote socket
  (`Stranded.FailureIsIgnored`) until its client sends or leaves (`Stranded.OnlyTheClientEndsIt`). A connecting
  session waits for its remote socket exactly if no reply has been attempted (`Stranded.WaitsExactly`).

## Model

| member | source | states |
|---|---|---|
| `DnsBuffer.Buffer.SetPos` | src/core/src/dnslib/buffer.cpp:207-213 | moves the cursor to a position before the end and throws, without moving it, for the end itself and beyond |
| `DnsBuffer.Buffer.Get8Bits` | src/core/src/dnslib/buffer.cpp:139-147 | returns the octet at the cursor and moves past it, or throws at the end |
| `DnsBuffer.Buffer.Get16Bits` | src/core/src/dnslib/buffer.cpp:157-167 | returns two octets, high first, or throws |
| `DnsBuffer.Buffer.Get32Bits` | src/core/src/dnslib/buffer.cpp:179-191 | returns four octets, high first, or throws |
| `DnsBuffer.Buffer.Put8Bits` | src/core/src/dnslib/buffer.cpp:149-155 | appends one octet and leaves the octets behind it, or throws and changes nothing |
| `DnsBuffer.Buffer.Put16Bits` | src/core/src/dnslib/buffer.cpp:169-177 | appends the low sixteen bits, high octet first, or throws and changes nothing |
| `DnsBuffer.Buffer.Put32Bits` | src/core/src/dnslib/buffer.cpp:193-205 | appends thirty-two bits, high octet first, or throws and changes nothing |
| `DnsBuffer.Buffer.TakeBytes` | src/core/src/dnslib/buffer.cpp:215-222 | returns the octets at the cursor and moves past them, or throws |
| `DnsBuffer.Buffer.PutBytes` | src/core/src/dnslib/buffer.cpp:224-233 | appends a run of octets; an empty run needs no room |
| `DnsBuffer.Buffer.GetDnsCharacterString` | src/core/src/dnslib/buffer.cpp:235-245 | returns the octets that the length octet announces, also none |
| `DnsBuffer.Buffer.PutDnsCharacterString` | src/core/src/dnslib/buffer.cpp:247-251 | appends the length, cut to eight bits, and the octets; on throwing, octets before the cursor are intact |
| `Octets.CharStringRoundTrip` | src/core/src/dnslib/buffer.cpp:235-251 | a character string is read back if and only if it has at most 255 octets |
| `DnsBuffer.Buffer.ReadLabels` | src/core/src/dnslib/buffer.cpp:267-309 | the reading loop ends as `Scan` says: with the text and the cursor behind the zero octet, or with the text, the saved position and the cursor at the target of a pointer, or throws |
| `DnsBuffer.Buffer.GetDnsDomainName` | src/core/src/dnslib/buffer.cpp:253-330 | returns what `DecodeName` says and where; on success the list of visited positions is as before, a loop clears it; the set of unvisited positions shrinks with every recursive call |
| `Names.DecodeName` | src/core/src/dnslib/buffer.cpp:253-330 | a decoded name leaves the cursor behind its start and inside the buffer and has at most 255 octets; terminates because every jump adds a new position |
| `LinkLoops.LoopDetectionExact` | src/core/src/dnslib/buffer.cpp:253-330 | for any octets, the decoder with the list of visited positions succeeds with a text if and only if plain pointer following succeeds with it for some fuel, and reports a loop only if plain following never ends |
| `LinkLoops.LoopIffChainRepeats` | src/core/src/dnslib/buffer.cpp:257-264 | the loop error occurs if and only if the chain of jump targets, followed from the start, comes to a position twice |
| `DnsBuffer.Buffer.ConvertName` | src/core/src/dnslib/buffer.cpp:332-389 | for every non-empty text the scan leaves in the scratch array exactly the length-prefixed labels and the zero octet, and in the index array the offset of every label in order; it throws for a label over 63 octets, and a text of 255 octets without a closing dot runs past the array |
| `DnsBuffer.Buffer.EndLabel` | src/core/src/dnslib/buffer.cpp:356-381 | at a dot or at the end the open label is closed, or the scan is over with the result promised |
| `NameText.JoinSplit` | src/core/src/dnslib/buffer.cpp:347-389 | joining the labels of a text with dots gives back the text |
| `NameText.FlatLength` | src/core/src/dnslib/buffer.cpp:347-389 | the scratch form of a text has one octet more than the text, the zero octet not counted |
| `DnsBuffer.Buffer.FindTip` | src/core/src/dnslib/buffer.cpp:407-425 | finds the lowest offset at which the rest of the name already stands and ends strictly before the cursor, or none |
| `DnsBuffer.Buffer.PutTipOrLabel` | src/core/src/dnslib/buffer.cpp:397-440 | writes a pointer to the first such place, or else the next label |
| `DnsBuffer.Buffer.PutCompressed` | src/core/src/dnslib/buffer.cpp:391-444 | writes what `AppendLabels` says, or throws with the octets before the name intact |
| `DnsBuffer.Buffer.PutDnsDomainName` | src/core/src/dnslib/buffer.cpp:332-451 | appends the name as `AppendName` says, compressed or not, or throws for the reason it gives, or for want of room with earlier octets intact |
| `NameRoundTrip.GreedyCompression` | src/core/src/dnslib/buffer.cpp:391-450 | the labels before the longest suffix that already stands in the buffer are written, then a pointer to its lowest offset, or all labels and the zero octet if there is none |
| `NameRoundTrip.CompressionShortens` | src/core/src/dnslib/buffer.cpp:391-450 | the compressed form is never longer than the uncompressed one |
| `NameRoundTrip.WireNotInsideLabels` | src/core/src/dnslib/buffer.cpp:397-440 | complete wire form never stands inside a run of labels |
| `NameRoundTrip.NotOwnStart` | src/core/src/dnslib/buffer.cpp:257-264 | a match never starts where the name being written starts, so following it is never reported as a loop |
| `NameRoundTrip.ChangedRegion` | src/core/src/dnslib/buffer.cpp:253-330 | if the region that a pointer was matched with has been overwritten, following it cannot yield the sought text |
| `NameRoundTrip.NameComesBack` | src/core/src/dnslib/buffer.cpp:253-451 | over any earlier octets, with compression on or off, and with a two-octet field before the name patched since, the name is read back with the cursor behind it if its pointer survived, and is never read as itself otherwise |
| `NameRoundTrip.NameReadBack` | src/core/src/dnslib/buffer.cpp:253-451 | without a patch a name is read back unless it closes with a pointer at the very end of the buffer |
| `NameRoundTrip.NamesComeBack` | src/core/src/dnslib/buffer.cpp:253-451 | any list of names written one after another with compression is read back as the same list with the cursor at the same place, if and only if the buffer does not end exactly behind a closing pointer |
| `NameDomain.PlainNameExact` | src/core/src/dnslib/buffer.cpp:332-389 | an uncompressed name is read back from its own octets if and only if it is empty or has labels of 1 to 63 octets, no dot at its end and at most 254 octets |
| `ClosingDots.ClosingDotForm` | src/core/src/dnslib/buffer.cpp:397-444 | with compression, a name with a closing dot is written as the labels before the longest run of last labels that stands anywhere, with anything behind it, and a pointer to its lowest offset; or, if there is none, as all labels and a zero octet |
| `ClosingDots.ClosingDotExact` | src/core/src/dnslib/buffer.cpp:253-451 | such a name is read back without its dot if and only if no pointer is written, or the pointer does not end the buffer, does not lead to the start of the name itself, and leads to labels with a zero octet behind them |
| `ClosingDots.ShortNameReadsAsLonger` | src/core/src/dnslib/buffer.cpp:397-444 | behind "a.b" the name "a." is written as a pointer and read as "a.b" |
| `ClosingDots.PointerToOwnStart` | src/core/src/dnslib/buffer.cpp:257-264 | the name "a.a.a." is written as a pointer to its own start and reported as a loop |
| `CompressedNames.CompressedNameExact` | src/core/src/dnslib/buffer.cpp:253-451 | over any earlier octets and up to offset 16384, which pointers can express, a text that is written with compression is read back as itself if and only if it is empty or has labels of 1 to 63 octets, no dot at its end and at most 254 octets, and its pointer does not end the buffer; or it has such labels and a dot at its end, and its pointer leads to its last labels with a pointer to the root name behind them |
| `CompressedNames.EmptyLabelReads` | src/core/src/dnslib/buffer.cpp:253-451 | a text with an empty label, if it is read at all, is read as what stands before the first empty label, with or without a dot, which is shorter than the text |
| `CompressedNames.ClosingDotKept` | src/core/src/dnslib/buffer.cpp:253-451 | a name with a closing dot is read back with its dot if and only if a pointer is written that does not end the buffer, does not lead to the start of the name itself, and leads to labels with a complete pointer to the root name behind them |
| `CompressedNames.DotIsKept` | src/core/src/dnslib/buffer.cpp:397-444 | behind the labels of "a" with a pointer to the root name, "a." is written as a pointer and read as "a." |
| `WireNames.NameReadExactly` | src/core/src/dnslib/buffer.cpp:253-330 | the decoder accepts a name, says which and where it ends if and only if it stands there: labels of 1 to 63 octets behind their lengths, closed by a zero octet or by a pointer of fourteen bits that is not the last thing in the buffer and leads to where the name goes on, in any finite number of stretches, with dots between and at most 255 octets in all |
| `WireNames.PlainNameReadExactly` | src/core/src/dnslib/buffer.cpp:253-330 | the same for a name that may not have pointers |
| `WireNames.WrittenExactly` | src/core/src/dnslib/buffer.cpp:332-389 | a text cannot be written as a name if and only if it has more than 255 octets, sixty-four in a row without a dot, or 255 without a dot at the end, and in that order these are the reasons |
| `WireLayouts.NameIsLaidOut` | src/core/src/dnslib/buffer.cpp:332-451 | a name is written as the labels between its dots, each behind its length, and a zero octet unless it has a dot at the end; with compression a pointer replaces the rest of the name as soon as that, with its zero octet, occurs before the last octet of the buffer, and leads to where it first occurs; a zero octet closes it if there is no pointer |
| `RecordCodec.EncodeRData` | src/core/src/dnslib/rr.cpp:52-458 | every RDATA class appends what `AppendRData` says, or throws with earlier octets intact |
| `RecordCodec.EncodeTexts` | src/core/src/dnslib/rr.cpp:276-280 | the strings of a TXT record one after another |
| `RecordCodec.EncodeAddress` | src/core/src/dnslib/rr.cpp:301-305 | the octets of an address one after another |
| `RecordCodec.ReadRData` | src/core/src/dnslib/rr.cpp:488-545 | reads the form that the type code selects |
| `RecordCodec.ReadTexts` | src/core/src/dnslib/rr.cpp:268-274 | reads strings until the announced size is used up |
| `RecordCodec.ReadTarget` | src/core/src/dnslib/rr.cpp:442-447 | reads the strings of an SRV target, a dot behind each, until the announced size, less six and wrapped around, is used up |
| `RecordCodec.PatchLength` | src/core/src/dnslib/rr.cpp:560-567 | overwrites the field and comes back to the end of the RDATA, which must lie before the end of the buffer |
| `RecordCodec.EncodeBody` | src/core/src/dnslib/rr.cpp:555-569 | RDLENGTH is written as zero and overwritten; succeeds if and only if there is room and, if there is RDATA, an octet is left |
| `RecordCodec.ResourceRecord.Encode` | src/core/src/dnslib/rr.cpp:550-569 | succeeds exactly when the record fits with an octet to spare behind RDATA; appends what `AppendRecord` says, and only the size field of the object changes |
| `RecordCodec.ResourceRecord.Decode` | src/core/src/dnslib/rr.cpp:476-548 | succeeds if and only if a record stands at the cursor; then the object holds that record, its size field is RDLENGTH, and the cursor stands behind it |
| `WireRecords.RecordReadExactly` | src/core/src/dnslib/rr.cpp:476-548 | the decoder accepts a record, says which and where it ends if and only if it stands there: a name, type, class, TTL and RDLENGTH, high octets first, and RDATA of that length and of the form that the type announces, or none if the length is zero |
| `WireRecords.RDataReadExactly` | src/core/src/dnslib/rr.cpp:483-548 | for every type code, RDATA is accepted if and only if it has the form of that code and its fields stand there: types 2 to 5, 7 to 9 and 12 are one name, 6 SOA, 13 HINFO, 14 MINFO, 15 MX, 16 TXT, 1 and 11 an IPv4 and 28 an IPv6 address, 33 SRV, 35 NAPTR, and any other is raw |
| `WireRecords.RecordOkExactly` | src/core/src/dnslib/rr.cpp:483-542 | a record is in the domain of the round trip if and only if its name and RDATA are agreed on and its type code announces that form of RDATA, or WKS |
| `WireLayouts.RecordIsLaidOut` | src/core/src/dnslib/rr.cpp:550-569 | a record is written as its name, type, class and TTL, the size of its RDATA, and the RDATA |
| `WireLayouts.RDataIsLaidOut` | src/core/src/dnslib/rr.cpp:57-470 | where each field of RDATA of each of the twelve forms is written, also of those that are not read back |
| `RecordRoundTrip.RDataComesBack` | src/core/src/dnslib/rr.cpp:52-458 | RDATA of every form but SRV and WKS is read back if every compression pointer in it survived; it is never read as itself otherwise, and SRV and WKS never are |
| `RecordRoundTrip.SrvLost` | src/core/src/dnslib/rr.cpp:436-458 | an encoded SRV record is read back with the last character of its target missing; an empty target makes the decoder take a character from an empty string |
| `RecordRoundTrip.RecordComesBack` | src/core/src/dnslib/rr.cpp:476-569 | a record is read back if its RDATA has octets and its pointers survived patching, and never otherwise |
| `BackPatching.PatchIsHarmless` | src/core/src/dnslib/rr.cpp:555-569 | if the names in the RDATA hold no zero octet and, where there are compressible names, RDLENGTH is below 256, the patch damages no pointer |
| `BackPatching.RecordRoundTripExact` | src/core/src/dnslib/rr.cpp:476-569 | under that condition a record is read back, with name, type, class, TTL and RDATA, and consumes exactly its octets, if and only if its RDATA is absent or has octets, is neither SRV nor WKS, and does not close with a pointer at the end of the buffer |
| `BackPatching.ZeroOctetLabelIsDamaged` | src/core/src/dnslib/rr.cpp:555-569 | an MX record whose exchange has zero octets is not read back, because its pointer leads into the length field |
| `BackPatching.HasOctetsExact` | src/core/src/dnslib/rr.cpp:506-509 | which RDATA takes no octets at all, and so is read back as absent |
| `MessageCodec.QuerySection.Encode` | src/core/src/dnslib/qs.cpp:56-61 | appends name, type and class, or throws with earlier octets intact |
| `WireRecords.QuestionReadExactly` | src/core/src/dnslib/message.cpp:105-110 | a question is accepted if and only if its name stands there and then its type and its class, high octets first |
| `WireLayouts.QuestionIsLaidOut` | src/core/src/dnslib/qs.cpp:56-61 | a question is written as its name, then its type, then its class, high octets first |
| `MessageCodec.ReadQuestions` | src/core/src/dnslib/message.cpp:105-116 | appends one new question object for each announced question, in order |
| `MessageCodec.ReadRecords` | src/core/src/dnslib/message.cpp:128-136 | appends one new record object for each announced record, in order |
| `MessageCodec.EncodeRecords` | src/core/src/dnslib/message.cpp:163-173 | encodes records in order until one does not fit |
| `MessageCodec.Message.Decode` | src/core/src/dnslib/message.cpp:82-126 | succeeds if and only if the octets are a message, and then the object holds that message; RCODE keeps its old value |
| `MessageCodec.Message.Encode` | src/core/src/dnslib/message.cpp:138-176 | succeeds exactly when `AppendMessageInto` does; then the array begins with its octets, the valid size is their number, the rest of the array is untouched, the header stands where `HeaderLaidOut` says, and the message says what it said; a first question that cannot be written is the reason it throws for |
| `WireMessages.HeaderReadExactly` | src/core/src/dnslib/message.cpp:92-103 | of every message that is accepted the ID is the first two octets, the flags are the bits of the next two, and the four counts are the next eight, high octets first |
| `WireMessages.HeaderIsLaidOut` | src/core/src/dnslib/message.cpp:145-160 | of every message that is written the same octets hold the ID, the flags, RCODE in the last four bits of the fourth octet, and the lengths of the four lists, cut to their width |
| `WireMessages.MessageReadExactly` | src/core/src/dnslib/message.cpp:82-136 | the octets are accepted, as a certain message, if and only if there are at most 512, the header says its ID, flags and the lengths of its lists, and its questions, answers, authorities and additional records stand one behind another from the header to the end |
| `MessageCodec.MessageFits` | src/core/src/dnslib/message.cpp:138-176 | encoding succeeds if and only if header, questions and records fit and, if the last record has RDATA, an octet is left |
| `MessageCodec.EncodedComesBack` | src/core/src/dnslib/message.cpp:82-176 | the octets that encoding leaves at the beginning of an array of any size are decoded to the same message under exactly the conditions of the round trip |
| `MessageRoundTrip.FlagsUnpack` | src/core/src/dnslib/message.cpp:91-99 | ID and flags survive packing and unpacking |
| `MessageRoundTrip.HeaderComesBack` | src/core/src/dnslib/message.cpp:91-157 | the header of an encoded message is read back with its four counts |
| `MessageRoundTrip.QuestionsComeBack` | src/core/src/dnslib/message.cpp:105-161 | the questions of an encoded message are read back in order |
| `MessageRoundTrip.RecordsComeBack` | src/core/src/dnslib/message.cpp:118-173 | a section of records is read back in order if every record is intact, and never otherwise |
| `MessageRoundTrip.MessageRoundTripExact` | src/core/src/dnslib/message.cpp:82-176 | decoding an encoded message restores ID, flags, questions and the three record lists in order, with RCODE as the caller had it, if and only if it has at most 512 octets, every record that has RDATA has octets in it and is neither SRV nor WKS, and it does not close with a compression pointer |
| `ByteAccounting.EveryOctetAccountedFor` | src/core/src/dnslib/message.cpp:82-126 | in every accepted message questions and records tile the octets behind the header up to the end, and header, question and record sizes add up to the size of the buffer |
| `ByteAccounting.RecordSize` | src/core/src/dnslib/rr.cpp:476-548 | an accepted record takes at least 11 octets and what RDLENGTH announces |
| `ByteAccounting.CountsAreBounded` | src/core/src/dnslib/message.cpp:82-126 | 12 + 5 QDCOUNT + 11 (ANCOUNT + NSCOUNT + ARCOUNT) is at most the size of an accepted message, which is at most 512 |
| `DnsSockets.QueryExact` | src/server/src/sockspp/server/dns_socket.cxx:52-64 | a name of at most 255 octets can be asked for, unless a label has more than 63 octets or the name overruns the scratch array, and never for want of room |
| `DnsSockets.QueryComesBack` | src/server/src/sockspp/server/dns_socket.cxx:52-64 | the octets sent for an agreed name are decoded as exactly the question for its address |
| `DnsSockets.NullRDataExact` | src/server/src/sockspp/server/dns_socket.cxx:110-145 | a null RDATA pointer is dereferenced if and only if the response can be decoded and some answer has class IN, type A or AAAA and no RDATA |
| `DnsSockets.PopFromEmptyExact` | src/core/src/dnslib/rr.cpp:436-450 | a character is taken from an empty SRV target if and only if RDLENGTH is 6, or 7 with an empty string |
| `DnsSockets.DnsSocket.Query` | src/server/src/sockspp/server/dns_socket.cxx:52-64 | encodes the question into an array of 512 octets and returns the octets to send, or throws what `QueryOctets` throws |
| `DnsSockets.DnsSocket.GetResponse` | src/server/src/sockspp/server/dns_socket.cxx:98-157 | decodes the octets received and returns the addresses among the answers in their order, with the port of the socket, or what went wrong |
| `DnsExchange.QueryIsLaidOut` | src/server/src/sockspp/server/dns_socket.cxx:52-64 | what is sent is twelve octets that are zero but for one question, then the name, then type 1 and class 1 |
| `DnsExchange.ResponseReadExactly` | src/server/src/sockspp/server/dns_socket.cxx:98-157 | octets that are no message are reported; of a message, the answers of class 1 and type 1 or 28 give their four or sixteen octets, in order, with the port of the socket, and if one of them has no RDATA its null pointer is read |
| `MemoryBuffers.MemoryBuffer.CopyFrom` | src/core/src/sockspp/core/memory_buffer.hpp:35-45 | copies as many octets as there is capacity for, and the size becomes that number |
| `Pollers.Poller.SetEvent` | src/core/src/sockspp/core/poller/epoll_poller.hpp:86-98 | changes a registration or makes a new one, and fails where the other was due |
| `Pollers.Poller.Poll` | src/core/src/sockspp/core/poller/epoll_poller.hpp:100-118 | whatever is ready, reports at most 512 registered pointers, each at most once, with flags that were asked for or cannot be refused; the first 512 that are ready, if they are possible together |
| `Sessions.Session.Initialize` | src/server/src/sockspp/server/session.cxx:70-88 | the session is accepted and listens to its client, unless asking for the peer throws |
| `Sessions.Session.Shutdown` | src/server/src/sockspp/server/session.cxx:90-120 | exactly the sockets that the session has are closed, none of them stays registered, and nothing else is taken out of the poller |
| `Sessions.Session.ProcessEvent` | src/server/src/sockspp/server/session.cxx:127-287 | every event handler does what the specification function says of state, sockets, scheduled octets and registrations, and leaves the registrations of others |
| `Sessions.Session.ProcessClientEvent` | src/server/src/sockspp/server/session.cxx:127-159 | the client socket: closed, writable again, or data for the present state |
| `Sessions.Session.ProcessRemoteEvent` | src/server/src/sockspp/server/session.cxx:161-226 | the remote socket: closed, failed, connected, writable again, or data |
| `Sessions.Session.ProcessUdpEvent` | src/server/src/sockspp/server/session.cxx:228-261 | the UDP socket: a packet that is dropped, a failure that ends the session, or a payload for the present state |
| `Sessions.Session.ReceivePacket` | src/server/src/sockspp/server/udp_socket.cxx:31-130 | passes packets of at most 10 octets on as they are, drops longer ones that are not the client's or not for an IP address or empty, takes the header off the others, and tells when it is longer than the packet |
| `Sessions.Session.ProcessDnsEvent` | src/server/src/sockspp/server/session.cxx:263-287 | the response is looked at, then the DNS socket leaves the poller and the command is carried out with the addresses |
| `Sessions.Session.ProcessClient` | src/server/src/sockspp/server/session.cxx:310-364 | client data according to the state |
| `Sessions.Session.RequestAuth` | src/server/src/sockspp/server/session.cxx:494-545 | goes on only for version 5, if the method of the server is found in the block and the answer could be sent |
| `Sessions.Session.FindMethod` | src/server/src/sockspp/server/session.cxx:508-522 | selects the wanted method if and only if it is found in the block among as many methods as its second octet says, whatever was received |
| `Sessions.Session.HandleAuth` | src/server/src/sockspp/server/session.cxx:547-590 | goes on only if the lengths pass the wrapping checks and user name and password are accepted |
| `Sessions.Session.CheckCommand` | src/server/src/sockspp/server/session.cxx:592-619 | refuses commands other than CONNECT and UDP ASSOCIATE with a reply |
| `Sessions.Session.ResolveAddress` | src/server/src/sockspp/server/session.cxx:621-671 | an address is used at once, a domain name is resolved, another address type is refused |
| `Sessions.Session.ResolveDomainName` | src/server/src/sockspp/server/session.cxx:673-732 | registers a DNS socket and waits, refuses if there is no DNS server or the query fails, or ends in an exception or worse if the name cannot be written |
| `Sessions.Session.DoCommand` | src/server/src/sockspp/server/session.cxx:734-776 | opens the sockets, which may throw, and connects, ignoring whether that could be started, or associates |
| `Sessions.Session.ConnectRemote` | src/server/src/sockspp/server/session.cxx:778-801 | the remote socket is registered only if the first attempt could be started |
| `Sessions.Session.Associate` | src/server/src/sockspp/server/session.cxx:829-899 | replies success before the sockets exist, and is refused only if the send of the reply returns zero: -1 counts as sent |
| `Sessions.Session.ReplyRemoteConnection` | src/server/src/sockspp/server/session.cxx:289-308 | a success makes the session a relay and listens to the remote socket, whether or not the reply can be sent |
| `Sessions.Session.TryConnectNext` | src/server/src/sockspp/server/remote_socket.cxx:56-141 | tries the next address, or replies that it is unreachable after the last, or a general failure if the attempt fails at once |
| `Sessions.Session.CouldConnect` | src/server/src/sockspp/server/remote_socket.cxx:143-160 | the attempt that is pending has succeeded, the list of addresses is dropped, and the peer is asked for, which may throw |
| `Sessions.Session.SessionSocketSend` | src/server/src/sockspp/server/session.cxx:393-487 | sends scheduled octets before fresh ones, schedules what is left, and sets the interests of both ends |
| `SessionRuns.StepKeeps` | src/server/src/sockspp/server/session.cxx:127-801 | every event, in any order and with any answers of the network, keeps the invariant of the session phase by phase |
| `SessionRuns.RunKeeps` | src/server/src/sockspp/server/session.cxx:70-899 | the invariant holds after every run |
| `SessionSafety.AuthenticationSafety` | src/server/src/sockspp/server/session.cxx:508-590 | on every run a remote, UDP or DNS socket exists only if the method of the server was found in the buffer of the greeting and, for a password, the right user name and password in that of the login; the client has offered the method if and only if the search ends among the octets received, and has sent user name and password if and only if the octets received go beyond the length of the password |
| `SessionSafety.OnlyTheClient` | src/server/src/sockspp/server/session.cxx:508-590 | on every run, if the list of methods and the login were received as far as they are read, a session acts only for a client that offered the method and sent the user name and password |
| `SessionSafety.OfferedExactly` | src/server/src/sockspp/server/session.cxx:508-522 | a method found in the block is among the octets received if and only if the search ends there, and is if all of the list was received |
| `SessionSafety.LoginSentExactly` | src/server/src/sockspp/server/session.cxx:547-579 | accepted lengths and credentials are those sent if and only if at least 3 octets and the user name were received |
| `StaleOctets.NothingSentLetsIn` | src/server/src/sockspp/server/session.cxx:555-570 | for every user name and password of at most 255 octets there is a run on which three single octets are received and a remote socket exists, and an address is tried, although neither the method was offered nor the login nor the destination sent |
| `Destinations.TargetsAreRead` | src/server/src/sockspp/server/session.cxx:592-732 | on every run the addresses that are tried are a prefix of those read: the address and port in the block of the request, or the addresses in the datagram that the DNS socket received, in order, with the port in the block; and the client has sent that destination if and only if the octets received go to the end of the request |
| `Destinations.DestinationSentExactly` | src/server/src/sockspp/server/session.cxx:592-641 | command, address type and destination were sent if and only if at least 10 octets were received for IPv4, 22 for IPv6, 7 and the length of the name for a name |
| `Destinations.OnlyAnswersMatter` | src/server/src/sockspp/server/dns_socket.cxx:98-157 | two datagrams whose answers have the same classes, types and RDATA give the same addresses, whatever their ID, flags, questions, owners, TTLs and other sections |
| `Destinations.OwnersExactly` | src/server/src/sockspp/server/dns_socket.cxx:110-145 | the addresses taken are those of the answers that a name owns if and only if no address has another owner |
| `Destinations.AddressesOfTheName` | src/server/src/sockspp/server/session.cxx:664-732 | on every run that connects to a name, the addresses tried come from the address answers of a datagram that can be decoded, and are those that it lists for the name in the request if and only if none of these answers has another owner |
| `StrayAnswers.StrayAnswerIsTaken` | src/server/src/sockspp/server/dns_socket.cxx:98-157 | a run on which the client asks for the root name, the datagram has another ID, is no response, has no question and one address of another name, and that address is tried, exists |
| `SessionSafety.OneCommandOneReply` | src/server/src/sockspp/server/session.cxx:289-308 | on every run a command is carried out at most once, at most one reply is attempted, and the attempts are a prefix of the addresses that were read |
| `SessionSafety.OnlyForward` | src/server/src/sockspp/server/session.cxx:310-364 | between any two points of a run the state does not go back |
| `SessionSafety.ConnectedExactly` | src/server/src/sockspp/server/remote_socket.cxx:143-160 | a session becomes a relay exactly on a writable event of a pending attempt whose peer can be asked for, and that is when, and the only time that, success is replied for a connection |
| `SessionSafety.SocketsAssignedOnce` | src/server/src/sockspp/server/session.cxx:734-899 | on every run, once a session has a remote socket, no later event gives it another remote or UDP socket, another list of addresses, or a second command |
| `Stranded.OnlyTheClientEndsIt` | src/server/src/sockspp/server/session.cxx:778-801 | from every state of a connecting session without a registered remote socket, a poll changes nothing, and any event is one of the client's socket and drops the session |
| `Stranded.WaitsExactly` | src/server/src/sockspp/server/session.cxx:734-801 | on every run a connecting session has its remote socket registered if and only if no reply has been attempted, that is, if and only if the first attempt could be started |
| `Stranded.FailureIsIgnored` | src/server/src/sockspp/server/session.cxx:734-801 | a run on which the first attempt cannot be started, failure is replied and the session goes on without a registered remote socket exists |
| `SessionSafety.UndefinedExactly` | src/server/src/sockspp/server/session.cxx:263-487 | an event of a run uses a null pointer or memory outside an object if and only if it is a flush that the socket takes only in part, a request for a name of 255 octets, a DNS response with a hollow address record or an SRV record without target, or a UDP packet shorter than its IPv6 header |
| `SessionSafety.ThrownExactly` | src/server/src/sockspp/server/session.cxx:263-899 | an exception leaves an event of a run if and only if a DNS response cannot be decoded, a label of the name asked for is too long, or a socket that is needed cannot be opened or asked for its address |
| `SessionOutcomes.DroppedExactly` | src/server/src/sockspp/server/session.cxx:127-899 | an event of a run drops the session if and only if a condition on its flags, the octets read and the answers of the sockets holds, which is given for each state: for a relay that the peer has closed, an error, no data on a read, or a send that fails |
| `SessionOutcomes.OutcomeExactly` | src/server/src/sockspp/server/session.cxx:127-899 | of every event of a run: which state a session goes to that goes on, which reply is attempted, which address is tried and which are to be tried, by the octets of the request (command 1 connects, 3 associates, any other is refused) and the answers of the sockets |
| `SessionOutcomes.NextAddressIsTried` | src/server/src/sockspp/server/remote_socket.cxx:56-127 | on every run, an error of a pending attempt leads to the next address: the session goes on without a reply if that attempt can be started and is dropped after a failure reply if not; after the last address it is dropped after the reply that the destination is unreachable |
| `SessionOutcomes.WaitsForExactly` | src/server/src/sockspp/server/session.cxx:70-899 | on every run, which sockets the poller waits for in each state, and what for |
| `SessionOutcomes.PacketReadExactly` | src/server/src/sockspp/server/udp_socket.cxx:31-130 | a UDP packet of at most 10 octets is passed on as it is, one from the client with an IPv4 or IPv6 header without its first 10 or 22 octets, and all others are dropped, except that a length is negative for 11 to 21 octets with an IPv6 header |
| `HollowAnswers.NullRDataIsRead` | src/server/src/sockspp/server/dns_socket.cxx:110-145 | a run on which a DNS response that the decoder accepts makes the session read through a null pointer exists |
| `Relay.RelayConservation` | src/server/src/sockspp/server/session.cxx:393-487 | on every run on which the directions are never both blocked and a flush sends all or nothing, what came from one peer is what went to the other followed by what is scheduled, in order, and the poller waits for the blocked socket and does not read its peer |
| `RelayEvents.RelayedExactly` | src/server/src/sockspp/server/session.cxx:393-487 | of every event that a relay survives: what goes on from the front of the scheduled octets, or of those read if there are none, what is scheduled then, and what is waited for; the other direction is not touched |
| `Relay.ShortfallExactly` | src/server/src/sockspp/server/session.cxx:393-487 | on every run that the session survives, the number of octets that came is greater than the number of those that have gone on or are scheduled by as many as were read while others were scheduled for the same socket, and what has gone on, followed by what is scheduled, is what came, in order, if and only if that number is zero |
| `OctetOrigins.OriginsExact` | src/server/src/sockspp/server/session.cxx:413-452 | on every run that the session survives, each octet that has gone to one end or is scheduled for it is one of the other end's stream, each at most once and in order, or one that was never received; an event replaces scheduled octets by those at the same places of the buffer it reads into |
| `OctetOrigins.LossesExact` | src/server/src/sockspp/server/session.cxx:413-452 | on every run that the session survives, the octets of the stream that have gone through or are scheduled and those that were lost are together as many as came, and the difference of the lengths is the number of octets lost less the number of those never received |
| `OctetOrigins.PiecesExact` | src/server/src/sockspp/server/session.cxx:413-452 | on every run on which no send takes only part of the scheduled octets during a read, what has gone on, followed by what is scheduled, is what came with exactly the pieces taken out that were read while others were scheduled |
| `OctetOrigins.NeverReceivedOnRun` | src/server/src/sockspp/server/session.cxx:426-441 | on every run, at every point only octets that were received have gone through or are scheduled, if and only if no event replaces scheduled octets while it reads fewer octets than are scheduled |
| `RelayLoss.OctetsCanBeLost` | src/server/src/sockspp/server/session.cxx:393-487 | a run on which both directions become blocked, an octet is lost and the relay goes on exists |
| `ForeignOctets.OctetsNeverReceived` | src/server/src/sockspp/server/session.cxx:426-441 | a run on which the relay goes on, four of five octets that came are lost, and three octets that were never received are scheduled, although the lengths differ by one only, exists |
| `Servers.Server.constructor` | src/server/src/sockspp/server/server.cxx:25-82 | a new server has no sessions, no history and a poller of its own with nothing registered, so that it can serve |
| `Servers.Server.CreateNewSession` | src/server/src/sockspp/server/server.cxx:344-350 | a session that nothing else refers to joins the list, at the start of a run, unless its initialization throws |
| `Servers.Server.DeleteSession` | src/server/src/sockspp/server/server.cxx:352-361 | the session leaves the list, no pointer to it stays registered, and the others are as they were |
| `Servers.Server.Invalidate` | src/server/src/sockspp/server/server.cxx:243-258 | voids exactly the events of that session from this index on |
| `Servers.Server.Dispatch` | src/server/src/sockspp/server/server.cxx:232-241 | an event goes to a live session that has the socket; the session goes on with its run, or is ready to be deleted |
| `Servers.Server.HandleSessionEvent` | src/server/src/sockspp/server/server.cxx:232-260 | the event is delivered to its session, and only its history and its sockets in the poller change; the session is live or has left; every remaining event is as it was, or void because its session has left |
| `Servers.Server.HandleEvents` | src/server/src/sockspp/server/server.cxx:211-303 | unless the round ends early, exactly one session is new if a client wants to connect, with nothing in its history and its client's socket registered, and none otherwise; every event of the batch is delivered to its session, except that a session that has left gets no more; the listening socket stays registered, and the server stops if and only if that socket reports something else; it ends early only because a client cannot be admitted or a session has thrown or met undefined behaviour |
| `Servers.Server.AcceptClient` | src/server/src/sockspp/server/server.cxx:216-221 | a client that can be accepted and asked for its address becomes one new session, and otherwise an exception leaves the loop |
| `Servers.Server.Serve` | src/server/src/sockspp/server/server.cxx:155-325 | there are as many polls as one likes, or fewer because the loop has ended early with a reason; each poll waits for the listening socket and exactly for what the runs of the sessions say; the batches are handled in their order, each before the next poll, as `HandleEvents` says; however the loop ends, what has happened to every session that ever was is a run |
| `Servers.RunServer` | src/server_cli/src/cli.cxx:198-211 | the same for a server that was just made |
| `Servers.Server.LiveSessionIsSafe` | src/server/src/sockspp/server/server.cxx:155-325 | what is proved of every run holds for every live session of a server, whatever happened to the others: who is let in, one command and reply, only addresses that were read from the request or the datagram, which the client has sent under an exact condition, where the octets of both directions come from, by how many they fall short, when a connecting session waits, and interests that match |
| `Levenshtein.GetLevenshteinDistance` | src/server_cli/include/argparse/argparse.hpp:539-559 | the last cell of the table is the distance of the two strings |
| `Levenshtein.LeastNumberOfEdits` | src/server_cli/include/argparse/argparse.hpp:539-559 | the distance is the least number of insertions, deletions and substitutions, at any positions and in any order, that turn one string into the other |
| `Levenshtein.Symmetric` | src/server_cli/include/argparse/argparse.hpp:539-559 | the distance is symmetric |
| `Levenshtein.Triangle` | src/server_cli/include/argparse/argparse.hpp:539-559 | the distance satisfies the triangle inequality |
| `Levenshtein.GetMostSimilarString` | src/server_cli/include/argparse/argparse.hpp:562-577 | returns the first key in map order that is nearest to the input, and the empty string for no keys |
| `DecimalLiteral.IsDecimalLiteral` | src/server_cli/include/argparse/argparse.hpp:1405-1542 | accepts a string if and only if it is in the language of the grammar |
| `DecimalLiteral.ConsumeDigits` | src/server_cli/include/argparse/argparse.hpp:1452-1457 | drops exactly the digits at the front |
| `DecimalLiteral.IntegerPartConsumedLabel` | src/server_cli/include/argparse/argparse.hpp:1492-1509 | accepts exactly what can follow an integer part |
| `DecimalLiteral.PostDecimalPointLabel` | src/server_cli/include/argparse/argparse.hpp:1511-1516 | accepts exactly what can follow a decimal point |
| `DecimalLiteral.ExponentPartOptLabel` | src/server_cli/include/argparse/argparse.hpp:1518-1529 | accepts exactly an optional exponent |
| `DecimalLiteral.PostELabel` | src/server_cli/include/argparse/argparse.hpp:1531-1541 | accepts exactly a digit sequence with an optional sign |

## Left out

- RecordCodec.ResourceRecord.Decode: RDATA is a value here and not an object, so an object that holds
  RDATA of another record and decodes one without RDATA keeps it, and aliasing of RDATA is not captured.
- DnsBuffer.Buffer.GetDnsDomainName: after a failure the position of the cursor is not promised.
- MessageCodec.Message.Decode: what the object holds after a failure is not promised.
- MessageCodec.Message.Encode: why it throws is promised for the first question only.
- MessageRoundTrip.MessageRoundTripExact: on the names, RDATA and fields that `MsgOk` admits; when any
  other text comes back is `NameDomain.PlainNameExact` and `CompressedNames.CompressedNameExact`.
- ClosingDots.ClosingDotExact: for names that are agreed on but for their dot.
- Overflow of position arithmetic in buffers of nearly 2^32 octets.
- Printing, dumping and the rest of the DNS library's accessors.
- Sockets, epoll, parsing of addresses and configuration: only their answers, as inputs of each event.
- SessionSafety.UndefinedExactly: undefined behaviour is the use of a null pointer or of memory outside an
  object; reading octets of a buffer that were not received, overlapping copies, casts between socket classes
  and the destructor of a session, which mixes forms of `delete`, are not counted.
- SessionSafety.ThrownExactly: running out of memory is not counted.
- The contents of replies apart from their code, the UDP payload and its port map, and hooks.
- Servers.Server.Serve: any finite number of polls, from a listening socket that is bound and registered; an
  interrupted or failed poll ends the loop as the number of polls does.
- Servers.RunServer: parameters are given, and reading them from the command line is not modelled.
- Configuration: a server that has a DNS server has a valid address for it.
- Servers.Server.HandleEvents: of the sessions themselves nothing is promised once one of them throws or
  meets undefined behaviour, only of what has happened to them.
- Sessions.Session.ProcessEvent: a pointer to a socket is the session and the kind of socket, file
  descriptors are not numbered, and a closed descriptor is never used again. An object of the source that such
  a pointer refers to is never replaced, because the sockets are assigned once
  (`SessionSafety.SocketsAssignedOnce`).
- Levenshtein.GetMostSimilarString: the map is the sequence of its keys in order.
- The rest of the argument parser.
