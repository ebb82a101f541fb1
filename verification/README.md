# libmumble: message codec, TLS transport, certificate times, hostname matching

A Dafny model of the four parts of libmumble in which most of its logic lies, with
proofs of what they promise. `dafny verify dfyconfig.toml` checks everything.

## What is modelled

**The message codec** (`proto/Mumble.pb.cc`, `proto/Mumble.pb.h`). The generated
classes differ only in their field tables, so a message type is a `Schema`: one
`Field` (number, rule, kind) per member and the groups of members that share a
presence mask. `MumbleSchemas` transcribes the tables of Version, Reject,
ChannelState, BanList and BanEntry, ACL, ChanGroup and ChanACL, UserStats and Stats,
and proves them valid, so every theorem applies to each of them.

- `Wire` defines varints, tags and records after the "Protocol Buffers Encoding"
  document (sections "Base 128 Varints", "Message Structure" and "Length-Delimited
  Records"); `CodedStreams` is the stream interface over it. The library that implements
  these is not part of this model.
- `Messages` gives each message a value, and defines merging, parsing (as a fold over
  records, after "Last One Wins", "Optional and Repeated Elements" and "Packed Repeated
  Fields"), serializing and completeness on values. `MergeLaws`, `ParseLaws` and
  `RoundTrip` prove the laws of these.
- `WireFormat` says the same again in the numbers of the encoding document, without the
  constants and functions that parser and serializer share: the bytes of every message,
  and what becomes of every kind of record. `GeneratedCode` has the tags, masks and
  defaults that appear in the generated code, and messages byte by byte. `Paths` looks at
  messages from outside: what a path through submessages reaches.
- `Objects` and `ObjectOps` describe the state of a generated object (presence word,
  member storage, cached size), the value it stands for (`Abs`) and the presence
  invariant (`Coherent`: an absent scalar holds its default, an absent submessage is
  NULL or empty). `MessageObjects.Message` is the class with its accessors, parser with
  jumps, Clear, MergeFrom, CopyFrom, Swap, ByteSize, SerializeWithCachedSizes and
  IsInitialized; each method is proved against the functions on values. `PlainLoop` is
  the parser without jumps, down to what a failed read leaves in the message; `Sizes` the
  arithmetic of ByteSize; `PresenceRuns` arbitrary sequences of operations.
- What the library itself leaves behind when a read fails (the position, a torn string,
  the end flag after a failed skip) is a parameter, `Wire.Library`: any functions of the
  remaining input, the same for the parser with jumps and the one without.

**The TLS transport** (`src/TLSConnection_p.cpp`, `src/UVBio.cpp`, `src/ByteArray.cpp`).
`Connection` gives the callbacks of the loop thread as functions of the connection's
state and of what libuv, OpenSSL and the application's handlers do; a handler is the list
of writes and disconnects it makes. `TLSConnections` is the object itself, proved
against these functions. `TLSSystem` puts the loop thread, any number of writer threads,
the lock, the queue and the wake-ups together as a step system, and proves what every run
keeps; `TLSEndings` how every run ends, `TLSWakeups` when a buffer is stranded, and
`TLSRuns` holds concrete runs. `Shutdowns` says exactly which inputs shut a connection
down. `Causes` reads the reasons why a connection ends off the inputs alone, and `Effects`
and `TLSEffects` what is passed to SSL_write and which handlers are called. `UVBio`
is the BIO that turns received buffers into a stream; `ByteArrays` the buffer class.

What is taken for granted of the environment is in `TLSSystem.Enabled`: a closed handle
delivers no callback; an async callback comes only after a send, once for all sends so
far; a connection attempt cancelled by closing the socket is reported with status -1;
`uv_run` returns without an error only when all handles are closed.

**Certificate times** (`src/X509Certificate_p.cpp`, `src/Compat_win.cpp`,
`src/X509Verifier_win.cpp`, `src/X509Certificate.cpp`). `CertificateTime` holds
ParseASN1Time, the fixed-format strptime, and FileTimeFromStdTimeT; `timegm` is the
formula of POSIX.1-2017 (XBD section 4.16, Seconds Since the Epoch), in integers that do
not wrap.

**Hostname matching** (`src/X509HostnameVerifier.cpp`): `Hostname`. The rule is the
code's own, `*` for any whole label, which is more permissive than section 6.4 of
RFC 6125.

## What turned out false, and when

- A local Disconnect delivered before OnConnect makes the assertion at the top of
  OnConnect fail, and without assertions the application is told of an error instead of
  its disconnect (`TLSRuns.EarlyDisconnectIsReportedAsError`). The assertion holds exactly
  when no such request was delivered first (`TLSEndings.AssertionHoldsExactly`).
- A verify callback that shuts the connection down inside an SSL_connect that then
  succeeds leads to NotReached (`TLSRuns.DisconnectInVerifyIsNotReached`); for exactly
  which runs is `TLSEndings.EndsInNotReachedExactly`, for exactly which callbacks
  `Shutdowns.HandleStarvedExactly`, `Shutdowns.OnReadExactly` and
  `Shutdowns.OnConnectExactly`.
- A buffer written from another thread before the connection is established stays in the
  queue of the established connection until the next Write, because the drain drops a
  wake-up outside Established and nothing drains on entering it
  (`TLSRuns.WriteDuringHandshakeIsStranded`); exactly when is `TLSWakeups.StrandedExactly`.
- The handles are closed once for every cause of a shutdown, so more than once if there
  are several (`TLSEndings.ShutdownsCounted`, `TLSRuns.HandlesClosedTwice`).
- `include/mumble/ByteArray.h` says that Slice uses `len` bytes; the code allocates that
  many and copies the whole remainder. The result is as documented, and the copy stays
  inside the allocation, exactly when `len` is the default or reaches to the end
  (`ByteArrays.SliceAsDocumentedExactly`, `ByteArrays.SliceTooShort`).
- The constructor from a buffer is documented to copy `len` bytes; it copies as many as
  the capacity asked for, which stays inside the source exactly when the source is that
  long (`ByteArrays.ByteArray.FromBuffer`, `ByteArrays.ByteArray.CapacityPastTheBuffer`).
- FileTimeFromStdTimeT is exact exactly for times from 1601 on whose count of 100 ns
  units fits 64 bits (`CertificateTime.FileTimeExact`); all dates up to 9999 are among them.
- The two ASN.1 forms of a date agree exactly for years 1950 to 2049
  (`CertificateTime.FormsAgree`).

## Model

| member | source | states |
|---|---|---|
| Wire.ReadEncodedVarint | proto/Mumble.pb.cc:320-345 | a written varint is read back, and nothing after it is touched |
| Wire.VarintFits | proto/Mumble.pb.cc:2810-2898 | every 64-bit value, so also a sign-extended negative int32, fits the ten bytes a reader takes |
| Wire.ReadEncodedTag | proto/Mumble.pb.cc:9748-9851 | tags of one or more bytes are read back and split into field number and wire type |
| Wire.SplitJoin | proto/Mumble.pb.cc:2558-2748 | written records, groups included, are split into exactly those records |
| Wire.SplitConcat | proto/Mumble.pb.cc:2558-2748 | the records of two inputs in a row are the records of the one followed by those of the other |
| MergeLaws.MergeAssociative | proto/Mumble.pb.cc:9995-10056 | merging is associative, submessages included |
| MergeLaws.MergeEmptyLeft | proto/Mumble.pb.cc:10058-10062 | the empty message is a left identity, so merging into a cleared message copies |
| MergeLaws.MergeEmptyRight | proto/Mumble.pb.cc:9995-10056 | the empty message is a right identity |
| MergeLaws.MergeTyped | proto/Mumble.pb.cc:9995-10056 | merging two well-typed messages gives a well-typed one |
| ParseLaws.ParseIntoTyped | proto/Mumble.pb.cc:9427-9746 | parsing any bytes into a well-typed message leaves values of the declared types, enums in range |
| ParseLaws.ParseIntoIsMerge | proto/Mumble.pb.cc:9427-9746 | parsing into a message is parsing into a new one and merging the result in: last scalar wins, repeated fields append, submessages merge |
| ParseLaws.ParseConcatIsMerge | proto/Mumble.pb.cc:9427-9746 | if two inputs parse, their concatenation parses to the merge of what they parse to |
| ParseLaws.FoldBySlots | proto/Mumble.pb.cc:2558-2748 | parsing succeeds iff every field can read its own records, and each field depends on its own records only |
| ParseLaws.OrderIndependence | proto/Mumble.pb.cc:2558-2748 | inputs that give every field the same payloads in the same order have the same result, failure included |
| ParseLaws.PermutingDoesNotShow | proto/Mumble.pb.cc:2735-2743 | permuting records while keeping the order within each number, and inserting skipped records anywhere, changes nothing |
| ParseLaws.SkippedRecord | proto/Mumble.pb.cc:2735-2743 | a record with an unknown number or an untaken wire type may stand anywhere |
| ParseLaws.InvalidEnumKeepsValue | proto/Mumble.pb.cc:1553-1604 | an enum number outside the range leaves the earlier value and presence in place |
| RoundTrip.NumberRoundTrip | proto/Mumble.pb.cc:2750-2808 | a uint32 or int32, negative ones included, comes back from its 64-bit form |
| RoundTrip.SerializeThenParse | proto/Mumble.pb.cc:9427-9851 | parsing a message's serialization restores presence, values, repeated fields and submessages at every depth |
| RoundTrip.ConcatenationIsMerge | proto/Mumble.pb.cc:9995-10056 | the serializations of two messages in a row parse to the merge of the two |
| RoundTrip.PackedAndUnpackedAgree | proto/Mumble.pb.cc:2609-2687 | any mixture of packed chunks and single records appends exactly the list of values |
| RoundTrip.MergeComplete | proto/Mumble.pb.cc:4678-4684 | merging two initialized messages gives an initialized one |
| RoundTrip.CompleteAfterTransmission | proto/Mumble.pb.cc:6480-6487 | serializing and parsing keeps the answer of IsInitialized |
| WireFormat.ReadsVarint | proto/Mumble.pb.cc:2558-2748 | any base 128 varint of at most ten bytes, the shortest or not, is read as its value |
| WireFormat.RejectsVarint | proto/Mumble.pb.cc:2558-2748 | and nothing else is |
| WireFormat.RecordsWritten | proto/Mumble.pb.cc:320-345 | records are written with the type numbers 0, 1, 2, 3, 4 and 5 of the encoding document |
| WireFormat.SerializesAsSpecified | proto/Mumble.pb.cc:9748-9851 | the serialization of every message, in numbers: fields in order, each value with its own tag, negative numbers in 64 bits |
| WireFormat.ReadsNumber | proto/Mumble.pb.cc:1560-1576 | after tag and varint the field has the low 32 bits, as its kind takes them, or is as it was if they are outside the enum |
| WireFormat.ReadsFloat | proto/Mumble.pb.cc:9539-9552 | after a tag of type 5 the field has the next four bytes |
| WireFormat.ReadsText | proto/Mumble.pb.cc:2594-2606 | after tag and length the field has, or gains, that many bytes |
| WireFormat.ReadsMessage | proto/Mumble.pb.cc:4573-4586 | after tag and length the submessage has what its own loop makes of those bytes, and the parser fails unless that came to a clean end |
| WireFormat.ReadsPacked | proto/Mumble.pb.cc:2617-2626 | a packed field gains its values in order; if something that is no varint follows them the parser fails and keeps them |
| WireFormat.ReadsTornNumber | proto/Mumble.pb.cc:9539-9552 | a number or float that cannot be read leaves the message as it was |
| WireFormat.ReadsTornText | proto/Mumble.pb.cc:2594-2606 | a string that cannot be read is present, with what the library left in it |
| WireFormat.ReadsTornMessage | proto/Mumble.pb.cc:4573-4586 | a nested message without its length or cut short is present, as it was or empty |
| WireFormat.SkipsUnknown | proto/Mumble.pb.cc:2733-2743 | a record whose number and type no field takes is passed over, a whole group included |
| WireFormat.Stops | proto/Mumble.pb.cc:2733-2743 | the parser returns true at the end, on a zero tag and on an end-group tag, and tells the first from the others |
| WireFormat.KeepsWhatWasRead | proto/Mumble.pb.cc:2558-2748 | whatever follows well-formed records, what they made of the message stays |
| GeneratedCode.TagsAsGenerated | proto/Mumble.pb.cc:2558-2748 | the tags of nine tables are the numbers in the generated code |
| GeneratedCode.UserStatsTagsAsGenerated | proto/Mumble.pb.cc:9427-9746 | those of UserStats are 8, 16, 26 up to 69, 128 and 152 |
| GeneratedCode.MasksAsGenerated | proto/Mumble.pb.cc:9389-9418 | the presence masks are the numbers in the generated code |
| GeneratedCode.UdpPingAverage | proto/Mumble.pb.cc:9535-9552 | tag 69 and four bytes are read into udp_ping_avg, and written for it |
| GeneratedCode.NegativePosition | proto/Mumble.pb.cc:2810-2898 | position -1 is read from, and written as, tag 72 and ten bytes |
| GeneratedCode.ChannelName | proto/Mumble.pb.cc:2594-2606 | tag 26, a length and the bytes are read into name, and written for it |
| GeneratedCode.Opus | proto/Mumble.pb.cc:9748-9851 | opus is read from, and written as, the two-byte tag 152 and a one |
| GeneratedCode.RejectTypes | proto/Mumble.pb.cc:1448-1463 | types 0 to 8 are taken, 9 and up change nothing |
| GeneratedCode.Links | proto/Mumble.pb.cc:2609-2637 | links come with tag 32 one by one and with tag 34 packed |
| GeneratedCode.TrueByDefault | proto/Mumble.pb.cc:6227-6233 | the defaults of ACL, ChanGroup and ChanACL that are true |
| GeneratedCode.AclInitialized | proto/Mumble.pb.cc:6480-6487 | an ACL is initialized iff it has its channel and every group has its name |
| Paths.MergedAt | proto/Mumble.pb.cc:9995-10056 | at every place that singular submessages lead to: repeated fields append, a scalar is the second message's if it has one, a submessage is there if either has it |
| Paths.CompleteEverywhere | proto/Mumble.pb.cc:6480-6487 | complete iff no path through present submessages reaches a message that lacks a required field |
| HasBits.Set | proto/Mumble.pb.h:9707-9709 | setting a bit sets that bit and no other |
| HasBits.Unset | proto/Mumble.pb.h:9710-9712 | clearing a bit clears that bit and no other |
| HasBits.MemberHitsGroup | proto/Mumble.pb.cc:9389-9389 | a present member is seen by the mask of its group |
| Objects.NewObjCoherent | proto/Mumble.pb.cc:9327-9350 | a new object meets the presence invariant and stands for the empty message |
| Objects.CoherentTyped | proto/Mumble.pb.cc:9388-9425 | an object that meets the presence invariant stands for a well-typed message |
| Objects.RightCachesSerialize | proto/Mumble.pb.cc:9748-9851 | with right cached sizes, the bytes written with them are the serialization, every length prefix included |
| ObjectOps.CoherentHoldsDefaults | proto/Mumble.pb.cc:9388-9425 | under the invariant an absent member holds its default and an absent submessage is NULL or empty |
| ObjectOps.MissedGroupIsBlank | proto/Mumble.pb.cc:9388-9425 | a group whose mask is missed has nothing to clear |
| ObjectOps.AllBlankIsEmpty | proto/Mumble.pb.cc:2528-2556 | blank members and no bits are as good as a new object |
| ObjectOps.MissedGroupSizes | proto/Mumble.pb.cc:9853-9988 | skipping a group whose mask is missed loses no size |
| ObjectOps.MutableSubEffect | proto/Mumble.pb.h:9812-9816 | mutable_x marks the submessage present and hands out the one there, or a new empty one |
| Sizes.TagSizeRight | proto/Mumble.pb.cc:9853-9988 | the constant added for a tag is the length of that tag, for one- and two-byte tags |
| Sizes.SlotSizeIsSum | proto/Mumble.pb.cc:2810-2898 | the tag sizes plus data sizes of a member are the length of its records |
| Sizes.SumAllIsLength | proto/Mumble.pb.cc:9853-9988 | member sizes visited in any order add up to the length of the serialization |
| MessageObjects.Message.constructor | proto/Mumble.pb.cc:9327-9350 | a new object has no bit set and stands for the empty message |
| MessageObjects.Message.HasField | proto/Mumble.pb.h:9703-9705 | has_x answers whether the value has the field |
| MessageObjects.Message.GetScalar | proto/Mumble.pb.h:9716-9718 | x() answers the value, or if absent the declared default |
| MessageObjects.Message.SetScalar | proto/Mumble.pb.h:9719-9722 | set_x makes the field that value and changes no other |
| MessageObjects.Message.AddScalar | proto/Mumble.pb.h:5832-5834 | add_x appends to the repeated field and changes no other |
| MessageObjects.Message.ClearField | proto/Mumble.pb.h:9801-9804 | clear_x makes the field absent and changes no other |
| MessageObjects.Message.GetSub | proto/Mumble.pb.h:9805-9811 | x() for a submessage answers it, or a default instance if absent |
| MessageObjects.Message.MutateSub | proto/Mumble.pb.h:9812-9816 | mutable_x and a change of the object it points to change that field only |
| MessageObjects.Message.ReleaseSub | proto/Mumble.pb.h:9817-9822 | release_x hands over the submessage and leaves the field absent and NULL |
| MessageObjects.Message.SetAllocatedSub | proto/Mumble.pb.h:9823-9831 | set_allocated_x makes the field the object given, or absent for NULL |
| MessageObjects.Message.ReadNumber | proto/Mumble.pb.cc:1553-1604 | a varint has the effect of its record; a bad one changes no value |
| MessageObjects.Message.ReadValuesToLimit | proto/Mumble.pb.cc:2620-2625 | the values up to the limit, or up to the first bad one, are appended |
| MessageObjects.Message.ReadPacked | proto/Mumble.pb.cc:2620-2625 | a packed field appends its values; if it fails, exactly those before the bad one, with the position and end flag of the plain loop |
| MessageObjects.Message.ReadStringField | proto/Mumble.pb.cc:2594-2606 | the field becomes, or gains, the string read, or what the library leaves of it |
| MessageObjects.Message.ReadMessage | proto/Mumble.pb.cc:4576-4590 | a nested message merges into the submessage or is appended; if it fails, what it had read so far stays in it, as the plain loop has it |
| MessageObjects.Message.ReadNested | proto/Mumble.pb.cc:4576-4590 | the nested parser's message, position and end flag, relative to the outer limit |
| MessageObjects.Message.ReadField | proto/Mumble.pb.cc:2609-2687 | one case of the switch: result, the field, position and end flag are those of the plain loop, on failure too, and no other field changes |
| MessageObjects.Message.ReadRun | proto/Mumble.pb.cc:2609-2687 | a run of jumps between cases is that many turns of the plain loop, or ends in its failure |
| MessageObjects.Message.MergePartialFromCodedStream | proto/Mumble.pb.cc:2558-2748 | for every input, malformed or not, and every answer of ExpectTag and ExpectAtEnd, the parser ends with exactly the result, message, position and end flag of the plain loop |
| PlainLoop.CleanEndIsParse | proto/Mumble.pb.cc:2558-2748 | the plain loop comes to a clean end iff the whole input parses, with the same message |
| PlainLoop.ReadSlotIsApply | proto/Mumble.pb.cc:2609-2687 | reading a payload succeeds iff its record is well formed and applies, with the same value and rest |
| PlainLoop.LoopAtTag | proto/Mumble.pb.cc:2635-2636 | jumping on an expected tag is what reading that tag would do |
| MessageObjects.Message.Clear | proto/Mumble.pb.cc:9388-9425 | clearing under the group masks gives the empty message and no bits |
| MessageObjects.Message.MergeFrom | proto/Mumble.pb.cc:9995-10056 | merging under the group masks gives the merge of the two values |
| MessageObjects.Message.CopyFrom | proto/Mumble.pb.cc:10058-10062 | a copy has its source's value, also when copied onto itself |
| MessageObjects.Message.Swap | proto/Mumble.pb.cc:10069-10093 | swapping exchanges the two states |
| MessageObjects.Message.MemberSize | proto/Mumble.pb.cc:2810-2898 | the lines for one member add the length of its records and cache nested sizes |
| MessageObjects.Message.ByteSize | proto/Mumble.pb.cc:9853-9988 | the result is the length of the serialization, as if no mask had been tested, and every cached size that is used is right at every depth |
| MessageObjects.Message.SerializeWithCachedSizes | proto/Mumble.pb.cc:9748-9851 | after ByteSize the bytes written are the serialization, which `WireFormat.SerializesAsSpecified` gives in numbers |
| MessageObjects.Message.IsInitialized | proto/Mumble.pb.cc:6480-6487 | false iff some path through present submessages reaches a message in which a required field is absent |
| PresenceRuns.AnyRun | proto/Mumble.pb.h:9703-9831 | after any sequence of operations on two objects, failed parses included, absent members hold their defaults |
| MumbleSchemas.ChannelStateValid | proto/Mumble.pb.cc:2810-2898 | the table of ChannelState: two mask groups cover its singular members |
| MumbleSchemas.BanListValid | proto/Mumble.pb.cc:4558-4564 | the table of BanList: its mask starts at bit 1 |
| MumbleSchemas.UserStatsValid | proto/Mumble.pb.cc:9388-9425 | the table of UserStats: three mask groups cover its singular members |
| MumbleSchemas.AllTypesValid | proto/Mumble.pb.cc:6268-6277 | every table has the shape the theorems are about |
| MumbleSchemas.Transmit | proto/Mumble.pb.cc:6279-6450 | ByteSize, serializing and parsing into a new object give a copy with the same value |
| Connection.HandleStarvedKeepsLive | src/TLSConnection_p.cpp:78-103 | a handshake attempt enters Established at most once, before any handler call |
| Connection.OnReadKeepsLive | src/TLSConnection_p.cpp:204-266 | a read keeps phases and handler calls in order |
| Shutdowns.ActsExactly | src/TLSConnection_p.cpp:106-154 | a handler shuts the connection down iff it disconnects or one of its writes fails |
| Shutdowns.HandleStarvedExactly | src/TLSConnection_p.cpp:78-103 | the connection is left closed but not disconnected iff the handshake completes after the verify callback shut it and the established handler does not shut it again |
| Shutdowns.OnReadExactly | src/TLSConnection_p.cpp:204-266 | the same for a read that completes the handshake and its read loop |
| Shutdowns.OnConnectExactly | src/TLSConnection_p.cpp:294-333 | the same for OnConnect |
| TLSConnections.TLSConnectionPrivate.Disconnect | src/TLSConnection_p.cpp:106-114 | shuts down on the loop thread, wakes the loop from another, does nothing without a loop thread |
| TLSConnections.TLSConnectionPrivate.Write | src/TLSConnection_p.cpp:133-154 | the buffer goes to SSL_write on the loop thread, into the queue from another, nowhere without a loop thread |
| TLSConnections.TLSConnectionPrivate.HandleStarvedConnectState | src/TLSConnection_p.cpp:78-96 | does what the specification of a handshake attempt says, and answers whether it completed |
| TLSConnections.TLSConnectionPrivate.SSLVerifyCallback | src/TLSConnection_p.cpp:335-380 | encodes the whole chain in order, or shuts down with the first error and rejects; then runs the verify handler if there is one, and answers what it or the system verifier says |
| TLSConnections.TLSConnectionPrivate.OnConnect | src/TLSConnection_p.cpp:294-333 | does what the specification says, with a new empty BIO |
| TLSConnections.TLSConnectionPrivate.OnRead | src/TLSConnection_p.cpp:204-266 | queues exactly the received bytes in the BIO and does what the specification says |
| TLSConnections.TLSConnectionPrivate.ReadAll | src/TLSConnection_p.cpp:237-262 | the read handler is called with exactly the bytes of each SSL_read in order, although one buffer is reused |
| TLSConnections.TLSConnectionPrivate.OnDrainWriteQueue | src/TLSConnection_p.cpp:270-284 | an established connection passes its whole queue to SSL_write in order; any other leaves it alone |
| TLSConnections.TLSConnectionPrivate.EndThread | src/TLSConnection_p.cpp:156-197 | clears id and queue and calls the one end handler for the phase; what that handler does to the connection has no effect |
| TLSSystem.QueueConserved | src/TLSConnection_p.cpp:133-154 | for every interleaving, pushed is handed to SSL_write, then dropped by the clearing, then queued, in order; nothing is handed over before Established; the lock excludes |
| TLSEffects.EffectsOfRun | src/TLSConnection_p.cpp:133-154 | on every run the buffers passed to SSL_write are those the drain took from the queue and those written by handlers that are set and called, in order; and the handler calls, with their data, are those the inputs ask for |
| TLSEffects.HandedReachesSSL | src/TLSConnection_p.cpp:270-284 | if no handler writes, SSL_write has been passed exactly what the drain has taken from the queue |
| Effects.OnReadDid | src/TLSConnection_p.cpp:204-266 | what a read passes to SSL_write and which handlers it calls, data included, read off its inputs |
| Effects.OnConnectDid | src/TLSConnection_p.cpp:294-333 | the same for OnConnect |
| TLSSystem.WritersKeepOrder | src/TLSConnection_p.cpp:133-154 | what each thread asked to write while the loop ran is queued once and in its order |
| TLSSystem.DrainIsItsSteps | src/TLSConnection_p.cpp:270-284 | the drain's steps in a row are its effect as one step |
| TLSSystem.DrainIsAlone | src/TLSConnection_p.cpp:270-284 | nothing can be pushed during a drain, and at its end everything pushed has been handed over |
| TLSSystem.Lifecycle | src/TLSConnection_p.cpp:78-131 | on every run Starved and Established are entered at most once, the established handler is called at most once and before any other, and nothing is called after an end handler |
| TLSEndings.EndsInNotReachedExactly | src/TLSConnection_p.cpp:178-196 | a run ends in NotReached iff uv_run returned without error after a handshake that completed over its own shutdown |
| TLSEndings.EndHandlerMatches | src/TLSConnection_p.cpp:156-197 | if verify callbacks leave the connection alone, the thread ends disconnected, never in NotReached, with at most one end handler call: the one for the last cause, its error included, among all inputs of the run |
| Causes.OnReadTells | src/TLSConnection_p.cpp:204-266 | after a read, a disconnected phase and its error are those of the last cause among its inputs |
| Causes.OnConnectTells | src/TLSConnection_p.cpp:294-333 | the same for OnConnect |
| TLSEndings.AssertionHoldsExactly | src/TLSConnection_p.cpp:294-296 | the assertion in OnConnect holds iff no disconnect request was delivered before |
| TLSRuns.EarlyDisconnectIsReportedAsError | src/TLSConnection_p.cpp:286-302 | a run on which it fails, and the application is told of an error |
| TLSRuns.DisconnectInVerifyIsNotReached | src/TLSConnection_p.cpp:98-103 | a run that ends in NotReached |
| TLSEndings.ShutdownsCounted | src/TLSConnection_p.cpp:116-121 | on every run the handles are closed once for each cause other than a failed uv_run |
| TLSRuns.HandlesClosedTwice | src/TLSConnection_p.cpp:106-121 | a run on which they are closed twice |
| TLSWakeups.StrandedExactly | src/TLSConnection_p.cpp:270-284 | with the loop idle, a non-empty queue has no wake-up pending or owed iff the last wake-up was taken outside Established |
| TLSRuns.WriteDuringHandshakeIsStranded | src/TLSConnection_p.cpp:98-103 | a run on which an established connection keeps a buffer queued and nothing will drain it |
| UVBio.StreamConserved | src/UVBio.cpp:40-112 | delivered bytes followed by queued bytes are all bytes put in, for any interleaving |
| UVBio.NeverEmpty | src/UVBio.cpp:77-112 | if none is put in empty, no queued buffer is ever empty |
| UVBio.ChunkingDoesNotShow | src/UVBio.cpp:77-112 | how the input was cut and when it was read does not change the stream |
| UVBio.UVBioState.PutNewBuffer | src/UVBio.cpp:40-42 | a copy goes to the back of the queue |
| UVBio.UVBioState.PutOldBuffer | src/UVBio.cpp:44-46 | a copy goes to the front of the queue |
| UVBio.UVBioState.GetBuffer | src/UVBio.cpp:52-57 | the front buffer is taken off |
| UVBio.UVBioState.Read | src/UVBio.cpp:77-112 | delivers from the front buffer, at least one byte if none queued is empty, puts the rest back, and touches nothing past what it delivers |
| ByteArrays.ByteArray.From | src/ByteArray.cpp:25-44 | own storage with the given content, or null for a null buffer or a capacity below the length |
| ByteArrays.ByteArray.FromBuffer | src/ByteArray.cpp:25-44 | for any capacity: the copy stays inside the source iff it is as long as the effective capacity, and then the content is the first len bytes |
| ByteArrays.ByteArray.CapacityPastTheBuffer | src/ByteArray.cpp:40-41 | one byte with a capacity of two: it does not |
| ByteArrays.ByteArray.Copy | src/ByteArray.cpp:46-57 | same view and capacity, own storage |
| ByteArrays.ByteArray.Assign | src/ByteArray.cpp:59-64 | takes the other's view with own storage, also from itself |
| ByteArrays.ByteArray.Slice | src/ByteArray.cpp:90-103 | for any length: iff it is the default or reaches to the end, the copy stays inside its allocation, and then the result is the bytes asked for, in own storage, never null |
| ByteArrays.SliceAsDocumentedExactly | src/ByteArray.cpp:90-103 | what is copied is what is documented, and fits, iff the length is the default or reaches to the end |
| ByteArrays.SliceTooShort | src/ByteArray.cpp:101-102 | offset 0 and length 1 of three bytes: one allocated, three copied |
| ByteArrays.ByteArray.Append | src/ByteArray.cpp:106-121 | old content followed by the chunk's, with or without regrowth, also when appended to itself |
| ByteArrays.ByteArray.Truncate | src/ByteArray.cpp:125-129 | sets the length within the storage, which stays |
| ByteArrays.ByteArray.Equal | src/ByteArray.cpp:132-145 | true iff the views are equal, so an equivalence that tells null from empty |
| CertificateTime.Strptime | src/Compat_win.cpp:18-57 | fails iff there is a NUL among the first fourteen bytes; otherwise each field is the number of its characters, counted from 48 |
| CertificateTime.ParseASN1Time | src/X509Certificate_p.cpp:547-600 | computes the specified time of both forms; 0 for another type or length, a missing Z or a NUL |
| CertificateTime.GeneralInNumbers | src/X509Certificate_p.cpp:580-599 | a GeneralizedTime reads as the Seconds Since the Epoch of its fields, with the days before each month listed |
| CertificateTime.UtcInNumbers | src/X509Certificate_p.cpp:561-577 | a UTCTime likewise, in 19YY from YY = 50 on and in 20YY below |
| CertificateTime.OthersReadAsZero | src/X509Certificate_p.cpp:561-584 | another length, a missing Z or a NUL reads as 0 |
| CertificateTime.DaysBeforeAsListed | src/X509Certificate_p.cpp:599-599 | the days before each month, 31, 59, 90 and so on, and one more after February of a leap year |
| CertificateTime.ValidTextInNumbers | src/X509Certificate_p.cpp:547-600 | which texts count as valid: digits, a month, a day of that month with the lengths listed, and a time of day |
| CertificateTime.OrderPreserved | src/X509Certificate_p.cpp:547-600 | lexicographic order of the fourteen digits is order of the times, across leap years and centuries |
| CertificateTime.ValidityIsTextual | src/X509Certificate.cpp:80-82 | a certificate, its bounds in either form, is valid at a time iff the digits of that time lie between those of the bounds |
| CertificateTime.FormsAgree | src/X509Certificate_p.cpp:561-577 | the two forms read alike iff the year is 1950 to 2049; testing the first digit is testing YY >= 50 |
| CertificateTime.FormatThenParse | src/Compat_win.cpp:34-50 | every second of the years 0 to 9999 has digits that read back as it, and only one such text |
| CertificateTime.ParseThenFormat | src/Compat_win.cpp:34-50 | reading valid digits and formatting gives the digits back |
| CertificateTime.FileTimeExact | src/X509Verifier_win.cpp:107-121 | the words recombine to the exact count iff it is not negative and fits 64 bits |
| CertificateTime.FileTimeOfDates | src/X509Verifier_win.cpp:107-121 | for dates from 1601 to 9999 no wraparound, strictly increasing, and the seconds are recovered |
| CertificateTime.FileTimeInNumbers | src/X509Verifier_win.cpp:111-119 | 1601 begins at zero, 1970 at 116444736000000000, and a second is 10000000 |
| Hostname.LowerCaseHostnameVector | src/X509HostnameVerifier.cpp:67-87 | the labels of the name, with codes 65 to 90 moved up by 32 |
| Hostname.LabelsRejoin | src/X509HostnameVerifier.cpp:67-87 | a name has one label more than dots, none contains a dot, and they rejoin to the name |
| Hostname.RejoinLabels | src/X509HostnameVerifier.cpp:67-87 | labels without dots, rejoined, split into themselves |
| Hostname.HostnameExprMatch | src/X509HostnameVerifier.cpp:37-63 | answers whether the labels match one by one |
| Hostname.VerifyHostname | src/X509HostnameVerifier.cpp:12-26 | any DNS name matches, or the common name if there are none |
| Hostname.MatchingIsScanning | src/X509HostnameVerifier.cpp:37-87 | splitting and comparing equals one scan of both strings without splitting or lowercasing |
| Hostname.CaseDoesNotMatter | src/X509HostnameVerifier.cpp:67-87 | ASCII case of either side does not change the answer |
| Hostname.MatchesLabelwise | src/X509HostnameVerifier.cpp:37-63 | a match is: as many labels, and each a star or the same but for ASCII case |
| Hostname.WithoutStarIsEquality | src/X509HostnameVerifier.cpp:37-63 | a pattern without star labels matches exactly the names that are the same but for ASCII case |
| Hostname.StarIsOneLabel | src/X509HostnameVerifier.cpp:51-60 | a pattern matches only names with as many dots; a lone star matches exactly the names without |
| Hostname.StarKeepsMatch | src/X509HostnameVerifier.cpp:51-60 | replacing any label of a matching pattern by a star keeps the match |

## Left out

- One class per message: the generated classes are one class over a field table; the remaining generated messages repeat shapes covered here.
- The protobuf library: its readers are functions of the encoding document. A nested length that overruns the input fails; bool and enum values are cut to 32 bits; the end flag is cleared by reading a tag and by PopLimit; ReadRepeatedPrimitive's own inner loop is covered by the jumps of the generated code.
- Nested messages are held by value in their owner: pointers kept after mutable_x, and sharing through them, are not modelled.
- release, set_allocated and mutable for strings, and indexed setters of repeated fields.
- The meaning of floats (four opaque bytes), UTF-8 checks, the recursion limit, and sizes of 2^31 and more; round trips are for messages below 4 GiB.
- Static initialization, reflection, extension and unknown-field storage (this code is generated without them).
- Connect, thread creation, sockets, loop deletion, and the destruction of the connection.
- OpenSSL and libuv inside: SSL_connect, SSL_read and SSL_write give results chosen by the environment; that SSL_read drains the BIO, and the BIO's Write, are not connected to them. Results of SSL_read below -1 are not among those considered.
- What libuv does on a second uv_close of the same handle: how often it happens is counted, but the run goes on.
- Liveness: that a pending wake-up is eventually delivered is not stated.
- The system verifier and the parsing of certificates: their verdict is an input, and what OpenSSL makes of it is part of the result of SSL_connect.
- malloc(0) is taken to return storage; what happens after a copy that leaves its buffer is not modelled.
- The C library strptime of other platforms, which also rejects non-digits; `_mkgmtime` failing before 1970; the 32-bit clamp on Android; leap second 60.
- Extraction of DNS names and the common name from a certificate: they are parameters of Hostname.VerifyHostname.
- PKCS#12, PEM, self-signed generation, the system verifiers, Error, Utils, UVUtils and OpenSSLUtils.
