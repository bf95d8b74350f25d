# Verified model of the pushgo Simple Push server

pushgo keeps WebSocket connections to devices, stores which channels each device
subscribes to, and delivers version updates that application servers send to a channel's
endpoint. This project models the parts of it that hold state, run concurrently or encode
data, and proves what they keep. `dafny verify dfyconfig.toml` checks everything.

| file | what it models |
|---|---|
| `Varint.dfy`, `LogRecords.dfy`, `LogWriter.dfy`, `LogReader.dfy`, `LogRoundTrip.dfy`, `LogWire.dfy`, `LogItems.dfy` | the Protocol Buffers codec of log messages ("Base 128 Varints" and "Packed Repeated Fields" of the encoding specification): sizes, in-place writers, readers for arbitrary input, round trips, and the bytes described by field number |
| `HekaFrame.dfy` | Heka frames in a recycled buffer, and streams of them |
| `Ids.dfy`, `Keys.dfy`, `Tokens.dfy` | identifiers (section 3 of RFC 4122), primary keys and encrypted endpoint tokens (section 6.5 of NIST SP 800-38A, section 5 of RFC 4648) |
| `ChannelLists.dfy`, `Store.dfy`, `StoreHistory.dfy` | the memcached store as an index plus records, against a plain map from devices to channels, over whole runs |
| `Pool.dfy` | the memcached connection pool with its condition variable, under every interleaving |
| `Session.dfy`, `Registry.dfy` | one client session, and the registry of sessions under every interleaving |
| `ClientConn.dfy` | the client's table of pending requests, over whole runs of the send loop |
| `Broadcast.dfy`, `Balancer.dfy`, `Retry.dfy` | bucketed routing, weighted redirects and backoff, in 64-bit arithmetic |
| `Prelude.dfy`, `Arithmetic.dfy` | shared types and lemmas |

Methods that change state in the source are methods of a class (or work on an array) here,
each tied to a specification function or to an abstract state; the results over whole runs
are lemmas about those. Concurrency is a state machine whose steps are the source's critical
sections, atomic updates and router calls; a run is any sequence of enabled steps.
Everything a call gets from outside (the clock, random bytes, the network's answers, the
order of events) is a parameter.

Where the code and its comments disagree, the model follows the code:

- "Pare out duplicates" (gomemc_store.go:592-597) removes one position too early and panics
  on any list with a duplicate. It is harmless because no list ever has one, which is part
  of the store's invariant.
- isFatalError (emcee_store.go:51-57) means to keep a connection after four errors, but its
  cases do not fall through and only the last is kept.
- A nested log field that fails to decode (log_message.pb.go:1001) does not fail the
  message, and an empty uuid or hmac comes back nil.
- notifyAll (router_broadcast.go:420) adds the end of a bucket to its start, so contacts are
  skipped as soon as there are more than two buckets' worth.
- filterPeers (etcd_balancer.go:396) says it ignores full peers but keeps overfull ones with
  a negative count, which skews the weights; the peer list is nil until the first fetch.
- Ack (worker.go:597-601) ignores the acknowledged version, so an old acknowledgement can
  lose a newer update; StoreHistory says exactly when.
- notifyAll never ends for a bucket size of 0, which nothing rules out.
- The time to live of deleted records is set from that of registered ones
  (gomemc_store.go:109); the model lets any record expire at any time.

## Model

| member | source | states |
|---|---|---|
| `Varint.SizeOfVarint` | src/github.com/mozilla-services/pushgo/simplepush/log_message.pb.go:1145-1154 | the size loop counts exactly the bytes of the base 128 encoding of every 64-bit value |
| `Varint.VarintAtMostTen` | src/github.com/mozilla-services/pushgo/simplepush/log_message.pb.go:1260-1273 | no 64-bit value takes more than ten bytes, so the scratch buffer of ten bytes per packed integer cannot overflow |
| `Varint.VarintDigits` | src/github.com/mozilla-services/pushgo/simplepush/log_message.pb.go:1424-1432 | byte k of an encoding is bits 7k to 7k + 6 of the value, with the high bit on all bytes but the last, and no byte is wasted |
| `Varint.WriteVarint` | src/github.com/mozilla-services/pushgo/simplepush/log_message.pb.go:1424-1432 | writes exactly the encoding at the offset, advances by its length and leaves every other byte alone |
| `Varint.VarintRoundTrip` | src/github.com/mozilla-services/pushgo/simplepush/log_message.pb.go:777-788 | reading where an encoding was written gives back its value and the index just after it, whatever surrounds it |
| `Varint.OrIsAdd` | src/github.com/mozilla-services/pushgo/simplepush/log_message.pb.go:777-788 | or-ing a shifted group above everything accumulated so far is adding it, on words of any width, bits beyond the width cut off; the reading loop rests on it |
| `Varint.ScanVarint` | src/github.com/mozilla-services/pushgo/simplepush/log_message.pb.go:777-788 | the unrolled reading loop fails exactly when the data ends inside the varint, and otherwise yields its value cut to the width of the variable |
| `LogWriter.HeaderSize` | src/github.com/mozilla-services/pushgo/simplepush/log_message.pb.go:1026-1051 | the length of the wire form of the header, unrecognized bytes included |
| `LogWriter.FieldSize` | src/github.com/mozilla-services/pushgo/simplepush/log_message.pb.go:1052-1096 | the length of the wire form of the field, packed runs and unrecognized bytes included |
| `LogWriter.MessageSize` | src/github.com/mozilla-services/pushgo/simplepush/log_message.pb.go:1097-1144 | the length of the wire form of the message, nested fields and unrecognized bytes included |
| `LogWriter.HeaderMarshalTo` | src/github.com/mozilla-services/pushgo/simplepush/log_message.pb.go:1168-1205 | at any offset with enough room: no write out of bounds, exactly the wire form is written, its length is returned, other bytes keep their values |
| `LogWriter.VarintsAtMostTen` | src/github.com/mozilla-services/pushgo/simplepush/log_message.pb.go:1260-1273 | the packed integers fit the scratch buffer |
| `LogWriter.PackVarints` | src/github.com/mozilla-services/pushgo/simplepush/log_message.pb.go:1260-1273 | the scratch buffer ends up holding the concatenated encodings |
| `LogWriter.FieldMarshalTo` | src/github.com/mozilla-services/pushgo/simplepush/log_message.pb.go:1216-1320 | as for the header, with repeated and packed values |
| `LogWriter.MessageMarshalTo` | src/github.com/mozilla-services/pushgo/simplepush/log_message.pb.go:1332-1405 | as for the header; each nested field is preceded by a length that its own writer then honours |
| `LogWriter.HeaderMarshal` | src/github.com/mozilla-services/pushgo/simplepush/log_message.pb.go:1158-1167 | a buffer of Size bytes is filled to its end with the wire form |
| `LogWriter.FieldMarshal` | src/github.com/mozilla-services/pushgo/simplepush/log_message.pb.go:1206-1215 | a buffer of Size bytes is filled to its end with the wire form |
| `LogWriter.MessageMarshal` | src/github.com/mozilla-services/pushgo/simplepush/log_message.pb.go:1322-1331 | a buffer of Size bytes is filled to its end with the wire form |
| `LogWire.HeaderDescribed` | src/github.com/mozilla-services/pushgo/simplepush/log_message.pb.go:1168-1205 | split by tag and wire type alone, the bytes are the header's present fields under 1, 3, 4, 5 and 6, numbers in order, then the unrecognized bytes |
| `LogWire.FieldDescribed` | src/github.com/mozilla-services/pushgo/simplepush/log_message.pb.go:1216-1320 | the same for fields under 1 to 8, repeated values in order, packed ones as one run of varints, little-endian words or bytes |
| `LogWire.MessageDescribed` | src/github.com/mozilla-services/pushgo/simplepush/log_message.pb.go:1332-1405 | the same for messages: 1 uuid, 2 timestamp, 3 type, 4 logger, 5 severity, 6 payload, 7 env version, 8 pid, 9 hostname, 10 the fields, each described in turn |
| `LogReader.Delimited` | src/github.com/mozilla-services/pushgo/simplepush/log_message.pb.go:793-813 | an announced run lies inside the data; a length that wraps below the index is a slice panic, one past the end is an unexpected end |
| `LogReader.DelimitedIff` | src/github.com/mozilla-services/pushgo/simplepush/log_message.pb.go:796-812 | for every announced length: the run if it lies within the data, an unexpected end if it ends beyond, a slice panic if its end does not fit in 64 bits |
| `LogReader.ScanIntegers` | src/github.com/mozilla-services/pushgo/simplepush/log_message.pb.go:612-626 | the loop over packed integers agrees with its recursive reading, which stops at the announced end but may read up to the end of the data |
| `LogReader.ScanDoubles` | src/github.com/mozilla-services/pushgo/simplepush/log_message.pb.go:662-679 | the same for packed doubles, eight bytes at a time |
| `LogReader.ScanBools` | src/github.com/mozilla-services/pushgo/simplepush/log_message.pb.go:718-732 | the same for packed booleans |
| `LogReader.TagFits` | src/github.com/mozilla-services/pushgo/simplepush/log_message.pb.go:751-759 | a tag counted in the fewest bytes never takes more than were read, so stepping back over it stays at or after its start and the loop advances |
| `LogReader.ScanUnknown` | src/github.com/mozilla-services/pushgo/simplepush/log_message.pb.go:750-769 | where an unknown field is collected from and up to, or why not, for every skipping function |
| `LogReader.UnknownFrom` | src/github.com/mozilla-services/pushgo/simplepush/log_message.pb.go:751-769 | skipping starts one byte per seven bits of the tag before the tag's end, and takes what the skipping function reports |
| `LogReader.HeaderObject.Unmarshal` | src/github.com/mozilla-services/pushgo/simplepush/log_message.pb.go:329-466 | for every input: the final record and status are those of the header grammar, partial results of a failed call and unknown fields included |
| `LogReader.FieldObject.Unmarshal` | src/github.com/mozilla-services/pushgo/simplepush/log_message.pb.go:467-772 | for every input, packed and unpacked forms of the repeated values and unknown fields included |
| `LogReader.MessageObject.Unmarshal` | src/github.com/mozilla-services/pushgo/simplepush/log_message.pb.go:773-1025 | for every input, with the nested field appended before it is decoded and its error dropped |
| `LogItems.HeaderItemRead` | src/github.com/mozilla-services/pushgo/simplepush/log_message.pb.go:351-443 | one item of a known number sets the entry of that number as its content says and no other, or ends the call if it is of another kind |
| `LogItems.FieldItemRead` | src/github.com/mozilla-services/pushgo/simplepush/log_message.pb.go:489-749 | the same for fields, packed runs value by value |
| `LogItems.MessageItemRead` | src/github.com/mozilla-services/pushgo/simplepush/log_message.pb.go:791-1002 | the same for messages; a nested field is appended as far as it could be read |
| `LogRoundTrip.HeaderRoundTrip` | src/github.com/mozilla-services/pushgo/simplepush/log_message.pb.go:329-466 | every header is read back from its wire form, an empty hmac as nil, with any unknown fields it carries |
| `LogRoundTrip.FieldRoundTrip` | src/github.com/mozilla-services/pushgo/simplepush/log_message.pb.go:467-772 | every field, with any repeated values and unknown fields, is read back exactly |
| `LogRoundTrip.MessageRoundTrip` | src/github.com/mozilla-services/pushgo/simplepush/log_message.pb.go:773-1025 | every message with any nested fields is read back, negative 32- and 64-bit numbers and unknown fields included, an empty uuid as nil |
| `LogRoundTrip.MarshalThenUnmarshal` | src/github.com/mozilla-services/pushgo/simplepush/log_message.pb.go:1322-1404 | marshalling with the in-place writers and unmarshalling with the loops gives the message back |
| `LogRoundTrip.MessageExactRoundTrip` | src/github.com/mozilla-services/pushgo/simplepush/log_message.pb.go:808-813 | the message comes back unchanged if and only if its uuid is not an empty non-nil slice |
| `LogRoundTrip.NestedErrorDropped` | src/github.com/mozilla-services/pushgo/simplepush/log_message.pb.go:1000-1002 | a message whose nested field is any bytes at all is accepted, as far as the field could be read, exactly when decoding the field does not panic |
| `LogRoundTrip.TruncatedFieldAccepted` | src/github.com/mozilla-services/pushgo/simplepush/log_message.pb.go:1000-1002 | a concrete nested field that fails on its own and is accepted inside a message |
| `HekaFrame.HeaderLengths` | src/github.com/mozilla-services/pushgo/simplepush/log_emitters.go:65-70 | the header of every frame takes two to four bytes, so the header-size guard never fires |
| `HekaFrame.FrameLayout` | src/github.com/mozilla-services/pushgo/simplepush/log_emitters.go:77-88 | a frame in literal bytes: 1e, the header's length, 08 and the message length as a varint, 1f, the message |
| `HekaFrame.HekaMessage.MarshalFrame` | src/github.com/mozilla-services/pushgo/simplepush/log_emitters.go:59-89 | the frame depends on the message alone, never on what the recycled buffer held; refused exactly above the message limit |
| `HekaFrame.HekaMessage.Free` | src/github.com/mozilla-services/pushgo/simplepush/log_emitters.go:49-57 | a pooled encoder has no leftover fields and a length-only header; buffers over 1024 bytes are not pooled |
| `HekaFrame.HekaMessage.Emit` | src/github.com/mozilla-services/pushgo/simplepush/log_emitters.go:222-255 | whatever the encoder was used for before, the frame sent is that of the new message |
| `HekaFrame.EmitAll` | src/github.com/mozilla-services/pushgo/simplepush/log_emitters.go:222-255 | a run of messages through recycled encoders writes the concatenated frames of those that fit |
| `HekaFrame.AcceptedEach` | src/github.com/mozilla-services/pushgo/simplepush/log_emitters.go:60-64 | whether a message is framed depends on its own size alone: at most 65536 bytes |
| `HekaFrame.StreamSplits` | src/github.com/mozilla-services/pushgo/simplepush/log_emitters.go:77-88 | a stream of frames splits back into the framed bodies |
| `HekaFrame.StreamIsUnambiguous` | src/github.com/mozilla-services/pushgo/simplepush/log_emitters.go:77-88 | two lists of bodies with the same stream are the same list |
| `HekaFrame.StreamCarriesMessages` | src/github.com/mozilla-services/pushgo/simplepush/log_emitters.go:59-89 | splitting a stream and unmarshalling each body gives back the messages, in order |
| `Ids.Valid` | src/github.com/mozilla-services/pushgo/id/id.go:46-66 | accepts exactly 32 hex digits in either case, or the same in hyphenated groups |
| `Ids.Encode` | src/github.com/mozilla-services/pushgo/id/id.go:37-42 | succeeds exactly on sixteen bytes, with the valid id whose digits are theirs, hyphenated |
| `Ids.HexAlphabet` | src/github.com/mozilla-services/pushgo/id/id.go:37-42 | the digits are 0 to 9 and a to f in order, and are read in either case |
| `Ids.EncodeLayout` | src/github.com/mozilla-services/pushgo/id/id.go:37-42 | where each byte is printed, high half first, and where the hyphens stand |
| `Ids.DigitsOfValid` | src/github.com/mozilla-services/pushgo/id/id.go:74-82 | skipping hyphens copies exactly the 32 digits of a valid id, found by position |
| `Ids.DecodeString` | src/github.com/mozilla-services/pushgo/id/id.go:70-94 | never overruns or underfills the 32-byte array; the digits in pairs, or invalid |
| `Ids.EncodeThenDecode` | src/github.com/mozilla-services/pushgo/id/id.go:37-94 | sixteen bytes to text and back |
| `Ids.DecodeThenEncode` | src/github.com/mozilla-services/pushgo/id/id.go:37-94 | every valid id, decoded and encoded, becomes its lower-case hyphenated form |
| `Ids.CanonicalIs` | src/github.com/mozilla-services/pushgo/id/id.go:37-94 | that form, character by character |
| `Keys.FirstDot` | src/github.com/mozilla-services/pushgo/simplepush/storage.go:155 | the first separator, with none before it |
| `Keys.SplitOfJoin` | src/github.com/mozilla-services/pushgo/simplepush/storage.go:147-171 | splitting a joined key returns the pair if and only if the device id has no dot and neither id is empty |
| `Keys.SplitIff` | src/github.com/mozilla-services/pushgo/simplepush/storage.go:153-171 | what splitting any key gives: exactly which keys have no id, no channel, or a pair, and which pair |
| `Keys.JoinIsDotted` | src/github.com/mozilla-services/pushgo/simplepush/storage.go:147-151 | the device id, a dot and the channel id |
| `Keys.KeysAreDisjoint` | src/github.com/mozilla-services/pushgo/simplepush/storage.go:147-151 | keys of different pairs differ, and no key equals a dot-free id: lists and records never share a slot |
| `Tokens.CtrTwice` | src/github.com/mozilla-services/pushgo/simplepush/crypt.go:91-96 | applying a keystream twice restores the value, for any keystream |
| `Tokens.XorByteBit` | src/github.com/mozilla-services/pushgo/simplepush/crypt.go:62-63 | a bit of the exclusive or is set exactly when the bits differ |
| `Tokens.KeystreamShows` | src/github.com/mozilla-services/pushgo/simplepush/crypt.go:62-63 | value and encryption give the keystream back at every position, so different keystreams encrypt differently |
| `Tokens.XorKeyStream` | src/github.com/mozilla-services/pushgo/simplepush/crypt.go:62-63 | the in-place loop leaves the encrypted value in the buffer |
| `Tokens.Base64RoundTrip` | src/github.com/mozilla-services/pushgo/simplepush/crypt.go:65-81 | padded URL-safe base 64 decodes back, for every length |
| `Tokens.Base64Alphabet` | src/github.com/mozilla-services/pushgo/simplepush/crypt.go:65 | the URL-safe alphabet in order and the padding |
| `Tokens.Base64Three` | src/github.com/mozilla-services/pushgo/simplepush/crypt.go:65 | three bytes as a number are four symbols as a number |
| `Tokens.Base64Concat` | src/github.com/mozilla-services/pushgo/simplepush/crypt.go:65 | groups of three bytes are encoded each by itself |
| `Tokens.Base64Last` | src/github.com/mozilla-services/pushgo/simplepush/crypt.go:65 | how one or two bytes left over are padded |
| `Tokens.Encode` | src/github.com/mozilla-services/pushgo/simplepush/crypt.go:43-66 | what is returned for every key, nil and unusable ones included |
| `Tokens.Decode` | src/github.com/mozilla-services/pushgo/simplepush/crypt.go:68-97 | what is returned for every key and token, malformed and short ones included |
| `Tokens.DecodeIff` | src/github.com/mozilla-services/pushgo/simplepush/crypt.go:68-97 | a token decodes to exactly the value that, encrypted under its initial vector, gives the rest of it |
| `Tokens.ValidPK` | src/github.com/mozilla-services/pushgo/simplepush/handlers_endpoint.go:415-427 | accepts exactly the key alphabet |
| `Tokens.KeyCharacters` | src/github.com/mozilla-services/pushgo/simplepush/handlers_endpoint.go:415-427 | the key alphabet in characters |
| `Tokens.TrimIs` | src/github.com/mozilla-services/pushgo/simplepush/handlers_endpoint.go:148 | trimming takes white space off both ends and nothing else |
| `Tokens.ResolveIff` | src/github.com/mozilla-services/pushgo/simplepush/handlers_endpoint.go:137-165 | exactly which tokens resolve to a pair |
| `Tokens.TokenDecodes` | src/github.com/mozilla-services/pushgo/simplepush/crypt.go:43-97 | under a usable key a token is never empty and decodes to the value, for every initial vector |
| `Tokens.TokenRoundTrip` | src/github.com/mozilla-services/pushgo/simplepush/handlers_endpoint.go:137-165 | a token for valid ids resolves to the same pair, and is issued if and only if the token key is absent or usable |
| `ChannelLists.LessIsLexicographic` | src/github.com/mozilla-services/pushgo/simplepush/mc_common.go:59-63 | the order of ids is the byte-wise lexicographic order, stated by the first difference |
| `ChannelLists.SortedIsAscending` | src/github.com/mozilla-services/pushgo/simplepush/gomemc_store.go:590-591 | sorting a duplicate-free list gives the same ids, strictly ascending |
| `ChannelLists.SortedIsPermutation` | src/github.com/mozilla-services/pushgo/simplepush/gomemc_store.go:590-591 | sorting any list permutes it |
| `ChannelLists.IndexOf` | src/github.com/mozilla-services/pushgo/simplepush/mc_common.go:65-74 | the first position of the id, or -1 exactly when it is absent |
| `ChannelLists.RemoveFromAscending` | src/github.com/mozilla-services/pushgo/simplepush/mc_common.go:76-83 | removing a position of an ascending list removes that id alone and keeps the order |
| `ChannelLists.PareDuplicates` | src/github.com/mozilla-services/pushgo/simplepush/gomemc_store.go:592-597 | the paring loop panics if and only if the list has a duplicate, and otherwise changes nothing |
| `Store.WriteKeepsInv` | src/github.com/mozilla-services/pushgo/simplepush/gomemc_store.go:224-361 | writing a list and one of its records keeps every list ascending and every record live exactly when listed |
| `Store.WriteRefines` | src/github.com/mozilla-services/pushgo/simplepush/gomemc_store.go:224-361 | and changes the abstract map at that device and channel alone |
| `Store.ForgetKeepsInv` | src/github.com/mozilla-services/pushgo/simplepush/gomemc_store.go:397-401 | losing a record, by Drop or by expiry, keeps the invariant |
| `Store.ForgetRefines` | src/github.com/mozilla-services/pushgo/simplepush/gomemc_store.go:397-401 | and empties that slot of the abstract map alone |
| `Store.DropAllRefines` | src/github.com/mozilla-services/pushgo/simplepush/gomemc_store.go:497-513 | deleting the list and the records it names removes the device from the abstract map and nothing else |
| `Store.NoTraceOfDropped` | src/github.com/mozilla-services/pushgo/simplepush/gomemc_store.go:497-513 | a device absent from the abstract map has no live or registered record |
| `Store.CheckIdsIff` | src/github.com/mozilla-services/pushgo/simplepush/gomemc_store.go:252-265 | which identifier error goes with which ids |
| `Store.GomemcStore.FetchAppIDArray` | src/github.com/mozilla-services/pushgo/simplepush/gomemc_store.go:555-582 | the stored list, a miss, or a value of the wrong shape |
| `Store.GomemcStore.StoreAppIDArray` | src/github.com/mozilla-services/pushgo/simplepush/gomemc_store.go:584-606 | stores the sorted list if it has no duplicate, panics otherwise, and refuses an empty device id |
| `Store.GomemcStore.FetchRec` | src/github.com/mozilla-services/pushgo/simplepush/gomemc_store.go:608-639 | a miss reads as a deleted record of version 0 |
| `Store.GomemcStore.StoreRegister` | src/github.com/mozilla-services/pushgo/simplepush/gomemc_store.go:223-247 | refines the abstract registration; version 0 only waits |
| `Store.GomemcStore.Register` | src/github.com/mozilla-services/pushgo/simplepush/gomemc_store.go:249-266 | the identifier errors in order, or the abstract registration; the invariant is kept |
| `Store.GomemcStore.Update` | src/github.com/mozilla-services/pushgo/simplepush/gomemc_store.go:268-322 | replaces an existing record, even with version 0, and registers otherwise |
| `Store.GomemcStore.Unregister` | src/github.com/mozilla-services/pushgo/simplepush/gomemc_store.go:324-379 | removes exactly that channel, or reports that it is not listed |
| `Store.GomemcStore.Drop` | src/github.com/mozilla-services/pushgo/simplepush/gomemc_store.go:381-402 | empties exactly that slot; the channel stays listed |
| `Store.GomemcStore.Expire` | src/github.com/mozilla-services/pushgo/simplepush/gomemc_store.go:642-667 | a record lost to its time to live keeps the invariant and empties its slot |
| `Store.GomemcStore.DropAll` | src/github.com/mozilla-services/pushgo/simplepush/gomemc_store.go:495-513 | removes exactly that device |
| `Store.GomemcStore.FetchAll` | src/github.com/mozilla-services/pushgo/simplepush/gomemc_store.go:404-493 | exactly the pending channels touched since the cutoff, ascending, with version or time; expired is always empty |
| `StoreHistory.ChannelsAreIndependent` | src/github.com/mozilla-services/pushgo/simplepush/gomemc_store.go:224-513 | after any run the abstract store holds for each channel what that channel's own history says |
| `StoreHistory.LatestIsHeld` | src/github.com/mozilla-services/pushgo/simplepush/gomemc_store.go:224-303 | what a registration or update leaves until the channel is touched again |
| `StoreHistory.LatestIsReported` | src/github.com/mozilla-services/pushgo/simplepush/gomemc_store.go:404-493 | it is reported exactly if written at or after the cutoff, with its version, or the time for version 0 on an existing record |
| `StoreHistory.ClearedStays` | src/github.com/mozilla-services/pushgo/simplepush/gomemc_store.go:324-402 | what unregistering, dropping, expiry and dropping the device leave until the channel is touched again |
| `StoreHistory.RunThenFetch` | src/github.com/mozilla-services/pushgo/simplepush/gomemc_store.go:224-513 | any run of calls and expiries from an empty store, then a fetch: reported are exactly the channels whose own history left an update pending |
| `StoreHistory.AckDropsAnyVersion` | src/github.com/mozilla-services/pushgo/simplepush/worker.go:597-606 | an acknowledgement that goes through empties every channel it names, whatever the versions it names, and changes no other |
| `StoreHistory.PendingFromWrote` | src/github.com/mozilla-services/pushgo/simplepush/gomemc_store.go:224-303 | the update a channel holds is the one a particular operation wrote, its own version and time, still there |
| `StoreHistory.LosesNewsIff` | src/github.com/mozilla-services/pushgo/simplepush/worker.go:597-606 | an acknowledgement loses an update the client was never told of if and only if, since it was told, something wrote one and nothing after that cleared the channel |
| `StoreHistory.LostForGood` | src/github.com/mozilla-services/pushgo/simplepush/gomemc_store.go:404-493 | after that nothing is reported for the channel until it is registered or updated again |
| `StoreHistory.NewerUpdateLost` | src/github.com/mozilla-services/pushgo/simplepush/worker.go:597-601 | register, update to v1, report v1, update to v2, acknowledge v1: v2 is never reported, for all versions |
| `StoreHistory.FetchThenAck` | src/github.com/mozilla-services/pushgo/simplepush/worker.go:573-613 | store and worker together: a fetch, anything in between, an acknowledgement of exactly what was sent; then a fetch reports what is pending except on the acknowledged channels, where newer updates are gone too |
| `Pool.OnlyBadKeyIsKept` | src/github.com/mozilla-services/pushgo/simplepush/emcee_store.go:46-59 | of all errors only the bad-key message keeps a connection; "NOT FOUND" does not |
| `Pool.EmceeStore.GetClient` | src/github.com/mozilla-services/pushgo/simplepush/emcee_store.go:832-855 | one pass under the lock sleeps, fails, takes the oldest idle connection or charges a new one |
| `Pool.EmceeStore.ReleaseWithout` | src/github.com/mozilla-services/pushgo/simplepush/emcee_store.go:808-829 | what the shared state becomes for every error |
| `Pool.EmceeStore.Close` | src/github.com/mozilla-services/pushgo/simplepush/emcee_store.go:231-243 | no idle connection is left and the pool is closed |
| `Pool.EntryOutcome` | src/github.com/mozilla-services/pushgo/simplepush/emcee_store.go:832-855 | in every run: opened exactly when none is idle and the pool not full, the longest idle one taken whenever there is one, asleep exactly when neither, refused exactly when closed |
| `Pool.NoneIdleWhenOpening` | src/github.com/mozilla-services/pushgo/simplepush/emcee_store.go:844-852 | the capacity never rises while a connection is idle |
| `Pool.FirstInFirstOut` | src/github.com/mozilla-services/pushgo/simplepush/emcee_store.go:828-848 | in every run connections leave the pool in the order they were given back |
| `Pool.RunsKeepInv` | src/github.com/mozilla-services/pushgo/simplepush/emcee_store.go:808-855 | every state of every interleaving keeps the accounting, the wake-up and the exclusiveness invariants |
| `Pool.NoLostWakeups` | src/github.com/mozilla-services/pushgo/simplepush/emcee_store.go:808-855 | while a caller sleeps, free slots never exceed woken callers; with none woken all connections are in use |
| `Pool.PoolNeverExceeded` | src/github.com/mozilla-services/pushgo/simplepush/emcee_store.go:821-827 | before Close the capacity is idle plus charged and within its bounds, so the "size exceeded" branch is unreachable |
| `Pool.ConnectionsAreExclusive` | src/github.com/mozilla-services/pushgo/simplepush/emcee_store.go:844-848 | a connection is never held twice, nor held and idle |
| `Pool.CloseUnblocks` | src/github.com/mozilla-services/pushgo/simplepush/emcee_store.go:231-243 | after Close nobody is asleep, then or later |
| `Pool.CapacityAfterClose` | src/github.com/mozilla-services/pushgo/simplepush/emcee_store.go:840-843 | a run after Close that drives the capacity below zero |
| `Pool.CapacityLaw` | src/github.com/mozilla-services/pushgo/simplepush/emcee_store.go:808-855 | in every state of every run, after Close too: the capacity is idle plus charged plus what Close threw away, less the refused calls given back |
| `Session.HandshakeNamesOnce` | src/github.com/mozilla-services/pushgo/simplepush/worker.go:432-517 | a handshake keeps the id or refuses, names an unnamed worker validly, and consults the balancer only the first time |
| `Session.FirstHandshake` | src/github.com/mozilla-services/pushgo/simplepush/worker.go:464-517 | the requested id is kept exactly when it is valid, its channels can be stored and it lists none or is known; otherwise the id is sixteen random bytes in hex, or the handshake is refused |
| `Session.Worker.Hello` | src/github.com/mozilla-services/pushgo/simplepush/worker.go:354-429 | the id, the state, the store calls and the error in every outcome |
| `Session.FailureIff` | src/github.com/mozilla-services/pushgo/simplepush/worker.go:354-739 | which error each message ends with, and exactly when |
| `Session.CallsIff` | src/github.com/mozilla-services/pushgo/simplepush/worker.go:354-739 | which store calls each message leads to, and exactly when |
| `Session.GoesOnIff` | src/github.com/mozilla-services/pushgo/simplepush/worker.go:208-307 | exactly when a session goes on after a message |
| `Session.Worker.Ack` | src/github.com/mozilla-services/pushgo/simplepush/worker.go:573-619 | the store calls and the error in every outcome: each acknowledged channel of its own device is dropped in turn up to the first failure, then a fetch; nothing before a handshake |
| `Session.AckInOrder` | src/github.com/mozilla-services/pushgo/simplepush/worker.go:597-612 | channels are dropped one by one, updates before expired ones, and the fetch comes only if every drop succeeded |
| `Session.AckIgnoresVersions` | src/github.com/mozilla-services/pushgo/simplepush/worker.go:597-601 | two acknowledgements of the same channels lead to the same store calls, whatever their versions |
| `Session.Worker.Register` | src/github.com/mozilla-services/pushgo/simplepush/worker.go:622-691 | the store call and the error in every outcome: one call, with its own id and a valid channel, and only after a handshake |
| `Session.Worker.Unregister` | src/github.com/mozilla-services/pushgo/simplepush/worker.go:694-739 | the store call and the error in every outcome: once the store was asked it always succeeds |
| `Session.Worker.Ping` | src/github.com/mozilla-services/pushgo/simplepush/worker.go:852-875 | refused, and the worker stopped, exactly when less than the interval has passed |
| `Session.Worker.Handle` | src/github.com/mozilla-services/pushgo/simplepush/worker.go:208-307 | what one message of each kind does to the id, the store calls and the pings, and exactly when it ends the session |
| `Session.Worker.Sniff` | src/github.com/mozilla-services/pushgo/simplepush/worker.go:200-308 | in every session the id is set at most once, every store call carries it except the DropAll of handshakes before there was one, and n accepted pings span n - 1 intervals |
| `Session.PingsKeepDistance` | src/github.com/mozilla-services/pushgo/simplepush/worker.go:852-867 | any n accepted pings span at least n - 1 intervals |
| `Registry.Application.AddWorker` | src/github.com/mozilla-services/pushgo/simplepush/app.go:278-294 | replaced exactly when the id was taken; the count keeps step with the size of the map; nothing changes once the application is closed |
| `Registry.Application.RemoveWorker` | src/github.com/mozilla-services/pushgo/simplepush/app.go:296-310 | removes only that worker's own entry; the count keeps step; nothing changes once the application is closed |
| `Registry.Application.DisconnectPrevious` | src/github.com/mozilla-services/pushgo/simplepush/worker.go:494-501 | looking up the worker of a reconnecting device and closing it frees the id and nothing else, and the count follows |
| `Registry.RunsKeepInv` | src/github.com/mozilla-services/pushgo/simplepush/app.go:278-310 | every state of every interleaving of connections keeps the map and the balance invariants |
| `Registry.AddsAndRemovesAlternate` | src/github.com/mozilla-services/pushgo/simplepush/app.go:278-310 | for every id, non-replacing adds exceed successful removes by 1 if the id is in the map and 0 otherwise |
| `Registry.NewcomerTakesSlot` | src/github.com/mozilla-services/pushgo/simplepush/app.go:287-288 | a connection that is added takes its id's place and changes no other entry |
| `Registry.CloseFreesOwnSlot` | src/github.com/mozilla-services/pushgo/simplepush/app.go:301-304 | a Close takes out its own worker's entry exactly if it is there, and nothing else |
| `Registry.CountIsMapSize` | src/github.com/mozilla-services/pushgo/simplepush/app.go:290-308 | the worker count is the size of the map up to the counter updates still to come |
| `Registry.QuiescentCounts` | src/github.com/mozilla-services/pushgo/simplepush/worker.go:407-429 | with nothing in flight the count is the size of the map and router registrations balance per id |
| `Registry.StoredWorkersAreLive` | src/github.com/mozilla-services/pushgo/simplepush/worker.go:880-904 | a stored worker has the id it is stored under and its handler has not finished its final Close |
| `Registry.ClosingNeverEvictsAnother` | src/github.com/mozilla-services/pushgo/simplepush/worker.go:880-904 | a Close can only take out the entry that names its own worker |
| `ClientConn.PacketKinds` | src/github.com/mozilla-services/pushgo/client/packet.go:97-272 | kind, synchrony, id and reply expectation of every packet the client sends |
| `ClientConn.OnlyHandshakesMismatch` | src/github.com/mozilla-services/pushgo/client/packet.go:97-272 | among the packets the client sends, none lacks an id and only handshakes of two devices clash |
| `ClientConn.SendLoop.Finish` | src/github.com/mozilla-services/pushgo/client/packet.go:294-309 | a request that is not pending is ended by at most one reply or error and then one close |
| `ClientConn.SendLoop.ProcessRequest` | src/github.com/mozilla-services/pushgo/client/conn.go:288-347 | kept exactly when sent, answerable and its slot free; otherwise ended with exactly the right error; no pending request is disturbed |
| `ClientConn.RefusalIff` | src/github.com/mozilla-services/pushgo/client/conn.go:295-335 | which error a refused request ends with, and exactly when |
| `ClientConn.OccupantIsPending` | src/github.com/mozilla-services/pushgo/client/conn.go:268-278 | the slot of a kind and id holds exactly the pending request of that kind and id |
| `ClientConn.SendLoop.ProcessReply` | src/github.com/mozilla-services/pushgo/client/conn.go:259-286 | delivered to the occupant of the slot of its type (and id) and to nobody else; an error exactly when there is none |
| `ClientConn.SendLoop.CancelAll` | src/github.com/mozilla-services/pushgo/client/conn.go:253-257 | every pending request gets an end-of-file error and is closed; nothing happens to any other |
| `ClientConn.SendLoop.Send` | src/github.com/mozilla-services/pushgo/client/conn.go:349-379 | in every run each accepted request is closed once and last, never gets both a reply and an error, and none is pending at the end |
| `Broadcast.EveryAnswerIsHeard` | src/github.com/mozilla-services/pushgo/simplepush/router_broadcast.go:432-446 | as many answers as contacts, from different contacts, are answers from all of them |
| `Broadcast.NotifyBucket` | src/github.com/mozilla-services/pushgo/simplepush/router_broadcast.go:427-448 | how the loop ends for every order of answers, cancels, timeouts and closing; uninterrupted, delivered exactly when a contact accepts |
| `Broadcast.StartNext` | src/github.com/mozilla-services/pushgo/simplepush/router_broadcast.go:412-420 | adding the end of a bucket to its start takes (2^k - 1)b to (2^(k+1) - 1)b |
| `Broadcast.BucketsAreDisjoint` | src/github.com/mozilla-services/pushgo/simplepush/router_broadcast.go:411-421 | buckets are disjoint and ascending |
| `Broadcast.ProbedIffReachable` | src/github.com/mozilla-services/pushgo/simplepush/router_broadcast.go:411-421 | a broadcast that was not cut short probed exactly the contacts in some [(2^k - 1)b, 2^k b) |
| `Broadcast.PartitionIff` | src/github.com/mozilla-services/pushgo/simplepush/router_broadcast.go:406-423 | every contact is reachable if and only if there are at most two buckets' worth |
| `Broadcast.ZeroBucketStalls` | src/github.com/mozilla-services/pushgo/simplepush/router_broadcast.go:411-421 | with bucket size 0 and any contacts, every turn of the loop leads from index 0 back to index 0 with nothing delivered, whatever is received |
| `Broadcast.EndsIff` | src/github.com/mozilla-services/pushgo/simplepush/router_broadcast.go:411-421 | the loop ends if and only if the bucket size is not 0 or there is nobody to probe |
| `Broadcast.NotifyAll` | src/github.com/mozilla-services/pushgo/simplepush/router_broadcast.go:406-423 | the result is that of the loop's turns; the buckets probed, in closed form; delivered only if a probed contact accepted; uninterrupted, exactly if a reachable one does |
| `Balancer.SelectsIff` | src/github.com/mozilla-services/pushgo/simplepush/etcd_balancer.go:132-141 | in a sorted list a draw selects a peer exactly between the running totals before and after it, and never a peer without free connections |
| `Balancer.WeightIs` | src/github.com/mozilla-services/pushgo/simplepush/etcd_balancer.go:132-141 | how many draws select each peer of a sorted list |
| `Balancer.ExactWeights` | src/github.com/mozilla-services/pushgo/simplepush/etcd_balancer.go:123-142 | without negative counts exactly FreeConns draws select each peer |
| `Balancer.FairIff` | src/github.com/mozilla-services/pushgo/simplepush/etcd_balancer.go:396-399 | those exact weights hold if and only if no count is negative |
| `Balancer.EtcdPeers.Swap` | src/github.com/mozilla-services/pushgo/simplepush/etcd_balancer.go:115 | exchanges two peers; the sum still is the total |
| `Balancer.EtcdPeers.Append` | src/github.com/mozilla-services/pushgo/simplepush/etcd_balancer.go:117-121 | the sum is the total of the counts, modulo 2^64 |
| `Balancer.EtcdPeers.Sort` | src/github.com/mozilla-services/pushgo/simplepush/etcd_balancer.go:113-115 | sorting through Less and Swap: descending, a permutation, the same sum |
| `Balancer.EtcdPeers.Choose` | src/github.com/mozilla-services/pushgo/simplepush/etcd_balancer.go:123-142 | for every draw the index is in range and is the first whose running total exceeds the draw, with negative or wrapped totals too; one peer needs no loop |
| `Balancer.PublishedKeyParses` | src/github.com/mozilla-services/pushgo/simplepush/etcd_balancer.go:343-365 | the key a host publishes under parses back into its scheme and host if and only if the scheme has no slash |
| `Balancer.ParseKeyIff` | src/github.com/mozilla-services/pushgo/simplepush/etcd_balancer.go:343-365 | which keys parse and to what, and which errors the others give |
| `Balancer.KeptIff` | src/github.com/mozilla-services/pushgo/simplepush/etcd_balancer.go:370-403 | exactly which leaves stand for a peer, and for which |
| `Balancer.PublishedIsKept` | src/github.com/mozilla-services/pushgo/simplepush/etcd_balancer.go:370-403 | a published count is kept by every other host unless it is zero, and by its own host never |
| `Balancer.EtcdWalk` | src/github.com/mozilla-services/pushgo/simplepush/etcd.go:38-48 | the recursive walk appends what its leaves stand for, in order |
| `Balancer.FilterPeers` | src/github.com/mozilla-services/pushgo/simplepush/etcd_balancer.go:367-409 | keeps the other hosts with a readable key and a count other than zero, negative ones included, in the order of the walk |
| `Balancer.Fetch` | src/github.com/mozilla-services/pushgo/simplepush/etcd_balancer.go:411-439 | the kept peers, sorted, with their sum, exactly when etcd answered |
| `Balancer.RedirectURL` | src/github.com/mozilla-services/pushgo/simplepush/etcd_balancer.go:240-257 | redirects to the selected peer exactly when there is one with more free connections than this host; a nil dereference exactly before the first fetch |
| `Retry.PowerSquare` | src/github.com/mozilla-services/pushgo/retry/retry.go:154-164 | (x*x)^n is x^(2n) |
| `Retry.SquaringStep` | src/github.com/mozilla-services/pushgo/retry/retry.go:156-162 | one turn of the squaring loop keeps r * x^y modulo 2^64 |
| `Retry.Pow` | src/github.com/mozilla-services/pushgo/retry/retry.go:154-164 | the power modulo 2^64 for every input, the power itself when it fits |
| `Retry.PlannedNext` | src/github.com/mozilla-services/pushgo/retry/retry.go:97-109 | multiplying the delay by the backoff is the next term of the closed form, wrapping included |
| `Retry.PlannedIsExact` | src/github.com/mozilla-services/pushgo/retry/retry.go:131 | the planned delay is Delay * Backoff^(k-1) exactly when that fits in 64 bits |
| `Retry.WithJitter` | src/github.com/mozilla-services/pushgo/retry/retry.go:141-150 | the lesser of the delay and MaxDelay, plus the draw; never more than MaxDelay plus MaxJitter |
| `Retry.RetryFunc` | src/github.com/mozilla-services/pushgo/retry/retry.go:94-116 | f is called retries + 1 times, up to the first call that ends it; each delay is the closed form; the total wait is at most Retries times the longest |
| `Retry.RetryAttempt` | src/github.com/mozilla-services/pushgo/retry/retry.go:118-139 | retries exactly when allowed, with the same delay for attempt k as the k-th of RetryFunc, the smallest attempt number included |

## Left out

- Failures of single memcached calls and races of two servers on one device's list: the store's invariant does not survive them. A run of the store model is one in which every backing call succeeds, and device lists, which are stored without expiry, are not evicted.
- Store.GomemcStore.StoreRegister: takes valid ids only, as its callers check them first.
- Store.GomemcStore.Register: has no outcome for a failed memcached call.
- Store.GomemcStore.Update: has no outcome for a failed memcached call.
- Store.GomemcStore.Unregister: has no outcome for a failed memcached call.
- Store.GomemcStore.Drop: has no outcome for a failed memcached call.
- Store.GomemcStore.DropAll: has no outcome for a failed memcached call.
- Store.GomemcStore.FetchAll: has no outcome for a failed memcached call, and one time stands for the clock of the whole call.
- JSON, and AES itself: JSON is the identity on what it carries, a cipher is any keystream.
- LogReader.ScanUnknown: proto.Skip is not part of this model but any function that reports at least one byte or an error.
- LogRoundTrip.MessageExactRoundTrip: lists do not tell nil from empty, so it does not say that an empty non-nil list of fields also comes back nil.
- LogWriter.MessageSize: like every writer, takes records whose wire form is no longer than the largest slice, which is every record that fits in memory.
- HekaFrame.HekaMessage.MarshalFrame: proto.Buffer.Marshal is taken to append what Marshal returns; the header has only its length set, as nothing else ever sets one.
- HekaFrame.HekaMessage.Emit: takes the message id as generated and the fields in the order SortFields leaves them in; a failed write has no outcome.
- HekaFrame.EmitAll: one encoder is in use at a time, and every write succeeds.
- Tokens.TokenRoundTrip: trims ASCII white space only; a token that was issued decodes to none.
- Ids.DecodeString: Decode into a caller's slice that is too short, which panics, is not modelled.
- The order of equal elements after sort.Sort, whose algorithm is not part of the repository: peers are sorted by insertion through Less and Swap, channel lists on values.
- The ping data, health checks and existence probe of the stores, and the store methods of EmceeStore, which repeat those of GomemcStore.
- Registry.RunsKeepInv: covers runs before the application closes, when closeWorkers empties the map without lowering the count.
- Session.Worker.Hello: a panic in a handler, which the source turns into an error, does not occur in the model; socket writes, the store and the balancer answer through the input.
- ClientConn.SendLoop.Send: channels that block because nobody reads them are not modelled, only the order of what is sent on them and when they are closed; a request is submitted once.
- ClientConn.SendLoop.CancelAll: empties each outbox before unlisting it, in place of after; nothing looks in between.
- Broadcast.NotifyAll: a bucket size of 0 with a contact to probe is excluded, because there the loop does not end; Broadcast.EndsIff proves it.
- Balancer.FilterPeers: reading a decimal number is any partial function from text to 64-bit integers.
- Balancer.RedirectURL: whether the host is over its threshold, a comparison of floating-point numbers, is an input.
- HTTP and WebSocket handlers, sockets, configuration, metrics, logging text, discovery, the etcd client and proprietary pings: plumbing over libraries.
