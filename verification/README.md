# Verification model of rmw_dps_cpp

This project models the parts of `rmw_dps_cpp`, a ROS 2 middleware layer over DPS, that carry its
protocols, and proves what they promise. `dafny verify dfyconfig.toml` checks it.

## What is modelled

**Messages as CBOR.** `Messages` describes message schemas and abstract values: thirteen numeric
types, strings and wide strings with bounds, nested messages, and for each a scalar, a fixed array
or a sequence. The bindings for C and C++ differ in what they see of a string (a C string ends at
its first zero unit), in which bounds they check, and in how they read sequences. `Wire` says which
bytes a value has and what each binding reads from bytes; `Streams` and `TypeSupport` are the
streams and the walker itself, as objects and loops, proved against `Wire`. `RoundTrip`, `Locality`
and `WellFormed` prove the results. The primitives `CBOR_*` belong to the DPS library and are
defined in `Cbor` from section 3 of RFC 8949. `Tokens` and `Decoding` say which bytes these are, and
which bytes are read, in numbers and without the encoder and the readers. A value over the 32-bit cast of a sequence of
messages is written as the code writes it, with its length modulo 2^32; the round trip holds exactly
below that. A top-level message without members is the single unsigned integer 0.

**Discovery.** A node announces itself by a vector of strings, encoded as above (`NodePayload`). A
peer parses them (`Discovery`), replaces its map entry and updates the matched sets that local
publishers and subscriptions cache, in separate critical sections. `MatchedSets` proves what the
sets contain from the history of announcements and registrations; `DiscoveryRuns` is the machine of
critical sections interleaved with endpoint creation and destruction; `NodeDiscovery` does the same
in place, on objects, with the loops of the source.

**Waiting.** `Listeners` has the two kinds of source, `WaitSets` the loops of `rmw_wait` over its
arrays. `WaitProtocol` is the concurrent protocol: every lock operation, every reading of a source
and every change of one is a step, lock owners and program counters are explicit, and any number
of calls interleave with a thread that waits again and again on lists of its choice. Spurious
wakeups and the end of a timeout may come at any time. `ChangeNotification` puts the discovery
callback and the waits together, through the graph guard condition. `WaitRuns` says what waits and
sources come to by the actions and events of a run.

**Requests and types.** `Ledger` follows the requests of a service from delivery to response, over
whole runs and through the codec. `Demangle` prints type names and takes them apart.

## Findings

Behaviour a reader of the code might not expect; `Findings` has an input or a run for each of the
first five, and the lemma named here the exact condition.

- The bound check on scalar C strings lets a string be one unit longer than its bound
  (TypeSupport_impl.hpp:150, 187): `OverTheBoundByOne`. Strings under the C++ binding, and arrays of
  strings, are not checked.
- The encoding of a schema with an array of messages is in general not one well-formed CBOR item:
  the enclosing array announces one item for the member: `OneItemExactlyWithoutExtra`.
- A node name that holds `namespace=` is taken for a namespace: `ParseUndoesName`,
  `PeerHoldsLiveEndpoints`.
- A publisher registered after a topic was announced never gets that node into its set, until the
  node drops the topic and lists it again: `MatchedIsIntroducedAfterRegistration`.
- If serializing a response throws, the request stays pending without its publication, and taking a
  request with the same id again does not restore it: `OpenRequestHolds`.
- test_node.cpp:147-148 expects service types that are not demangled; the code at
  rmw_node_info_and_types.cpp:326 demangles them, and the model follows the code.

## Model

| member | source | states |
|---|---|---|
| RoundTrip.RoundTripWithFraming | rmw_dps_cpp/include/rmw_dps_cpp/TypeSupport_impl.hpp:257-341 | Codec round trip with framing, over every schema and value: reading a written message followed by any bytes gives the message back and leaves exactly those bytes, if and only if every sequence of messages in it is shorter than 2^32 (the cast at line 230) |
| RoundTrip.BindingsAgree | rmw_dps_cpp/include/rmw_dps_cpp/TypeSupport_impl.hpp:105-211 | Binding agreement, below the 2^32 bound and over all four pairs of writer and reader: each reads the other's bytes with exact framing; the message survives if and only if both sides are C++ or no string holds a zero unit; and the C bytes are the C++ bytes exactly then |
| RoundTrip.ReadersAgree | rmw_dps_cpp/include/rmw_dps_cpp/TypeSupport_impl.hpp:515-599 | Whatever bytes the C++ reader accepts, the other reader accepts too, with the same message as seen through its own strings, ending at the same byte |
| RoundTrip.PeekThenFill | rmw_dps_cpp/include/rmw_dps_cpp/TypeSupport_impl.hpp:372-379 | Peeking at the announced length and then filling an array of that length reads exactly what resizing a vector reads, and fails on exactly the same input |
| RoundTrip.SequenceRoundTrip | rmw_dps_cpp/include/rmw_dps_cpp/CborStream.hpp:420-464 | A written sequence is read back both by the resizing and by the filling reader, byte arrays through their byte string |
| RoundTrip.MemberRoundTrip | rmw_dps_cpp/include/rmw_dps_cpp/TypeSupport_impl.hpp:268-338 | One field, scalar, fixed array or sequence, of any of the type cases, is read back and leaves what follows |
| RoundTrip.NumberRoundTrip | rmw_dps_cpp/include/rmw_dps_cpp/CborStream.hpp:100-140 | Every value of every numeric type is read back from its encoding, at the bounds of its type too |
| RoundTrip.U16StringRoundTrip | rmw_dps_cpp/include/rmw_dps_cpp/CborStream.hpp:406-418 | A wide string is read back unit by unit from its array |
| RoundTrip.ReadIsShort | rmw_dps_cpp/include/rmw_dps_cpp/TypeSupport_impl.hpp:481-513 | A reader never returns a sequence of messages of 2^32 elements or more, which is why longer ones cannot survive |
| Locality.ReaderIsLocal | rmw_dps_cpp/include/rmw_dps_cpp/TypeSupport_impl.hpp:623-638 | Decoder locality, for both bindings and any accepted bytes: with any suffix appended, the same message is read and the suffix is added to what remains |
| Locality.NoProperPrefixDecodes | rmw_dps_cpp/include/rmw_dps_cpp/TypeSupport_impl.hpp:601-638 | No proper prefix of what either binding encodes is decoded by either, for messages below the 2^32 bound |
| Locality.EncodingsArePrefixFree | rmw_dps_cpp/include/rmw_dps_cpp/TypeSupport_impl.hpp:601-621 | Below the 2^32 bound, one encoding under a schema is a prefix of another, of any two bindings, if and only if the bindings see the same message |
| WellFormed.OneItemExactlyWithoutExtra | rmw_dps_cpp/include/rmw_dps_cpp/TypeSupport_impl.hpp:257-338 | A schema-free CBOR reader finds exactly one well-formed item in an encoding, an array of one item a member, if and only if no array of messages at any depth adds an item its enclosing array does not announce |
| WellFormed.PlainSchemasAreOneItem | rmw_dps_cpp/include/rmw_dps_cpp/TypeSupport_impl.hpp:257-338 | For a schema without arrays of messages every encoding is exactly one CBOR array with one item a member |
| TypeSupport.Serialize | rmw_dps_cpp/include/rmw_dps_cpp/TypeSupport_impl.hpp:601-621 | Two-pass writing: whatever the first buffer's size and wherever it overflowed, the stream ends good and holds exactly the bytes of the tokens of the value the binding sees, `size_` is their number, and a second buffer is exactly as large; it throws exactly for values over a checked bound |
| Tokens.EncodingIsTokens | rmw_dps_cpp/include/rmw_dps_cpp/TypeSupport_impl.hpp:257-341 | The bytes of every encoding, without the encoder: the value's data items, each with the first byte and the big-endian argument that section 3 of RFC 8949 gives its major type, written in numbers; strings are text, arrays of octets byte strings |
| Tokens.HeadBytes | rmw_dps_cpp/include/rmw_dps_cpp/CborStream.hpp:187-194 | A head has its major type in the upper three bits and the shortest argument, byte by byte |
| Tokens.NumberWritten | rmw_dps_cpp/include/rmw_dps_cpp/CborStream.hpp:100-140 | Integers of both signs, booleans, floats and doubles have these bytes |
| Tokens.IntegerExamples | rmw_dps_cpp/include/rmw_dps_cpp/CborStream.hpp:100-123 | Integers of appendix A of RFC 8949, of one to five bytes, with their bytes |
| Tokens.LongIntegerExample | rmw_dps_cpp/include/rmw_dps_cpp/CborStream.hpp:100-107 | Its ten to the twelfth, in nine bytes |
| Tokens.OtherExamples | rmw_dps_cpp/include/rmw_dps_cpp/CborStream.hpp:125-149 | Its booleans, a float, a byte string, a text and an array head |
| Tokens.DoubleExample | rmw_dps_cpp/include/rmw_dps_cpp/CborStream.hpp:133-140 | Its 1.1 as a double |
| Tokens.StringMessageBytes | rmw_dps_cpp/include/rmw_dps_cpp/CborStream.hpp:142-149 | The message with the one string "ab" is 81 62 61 62 |
| Decoding.ReadIffSpelled | rmw_dps_cpp/include/rmw_dps_cpp/TypeSupport_impl.hpp:515-599 | A reader returns a value and a rest if and only if the value is one of the schema, below the 2^32 bound, and the bytes spell its data items, in heads of any width, before that rest; so a byte string is no text, and no value is outside its type |
| Decoding.SpelledIsRead | rmw_dps_cpp/include/rmw_dps_cpp/TypeSupport_impl.hpp:343-467 | What spells a value is read by both bindings, each seeing it through its strings |
| Decoding.EmptyIsRead | rmw_dps_cpp/include/rmw_dps_cpp/TypeSupport_impl.hpp:631-635 | The empty message is any unsigned integer below 256 to its readers |
| Decoding.NumberTypes | rmw_dps_cpp/include/rmw_dps_cpp/CborStream.hpp:287-388 | The values of each numeric type, in numbers |
| Decoding.IntegersAreReadInRange | rmw_dps_cpp/include/rmw_dps_cpp/CborStream.hpp:287-371 | An integer, however it is spelled, is read if it is in the range of the type, written in numbers, and refused otherwise |
| TypeSupport.Exchange | rmw_dps_cpp/include/rmw_dps_cpp/TypeSupport_impl.hpp:601-638 | End to end through both streams, for any first buffer size and messages below the 2^32 bound: the reading side gets the value as both bindings see it, unless the writing side throws |
| TypeSupport.SerializeOnce | rmw_dps_cpp/include/rmw_dps_cpp/TypeSupport_impl.hpp:607-611 | One pass puts the encoding on the stream, the empty message as one unsigned integer, or throws exactly if the value is not accepted |
| TypeSupport.SerializeRosMessage | rmw_dps_cpp/include/rmw_dps_cpp/TypeSupport_impl.hpp:257-341 | The loop over members puts the array head and then every member's bytes, counting all of them even after an overflow |
| TypeSupport.SerializeField | rmw_dps_cpp/include/rmw_dps_cpp/TypeSupport_impl.hpp:105-211 | A field puts the bytes of its kind: scalar, sequence, or array of messages, after converting C strings |
| TypeSupport.SerializeSubmessages | rmw_dps_cpp/include/rmw_dps_cpp/TypeSupport_impl.hpp:213-255 | The elements of an array of messages follow each other, after their number modulo 2^32 if the array is not fixed; it throws exactly over the upper bound or where an element does |
| TypeSupport.SerializeElement | rmw_dps_cpp/include/rmw_dps_cpp/TypeSupport_impl.hpp:139-153 | A scalar string of the C binding throws exactly if it is more than one unit over its bound |
| TypeSupport.UntilZero | rmw_dps_cpp/include/rmw_dps_cpp/TypeSupport.hpp:73-76 | The loop over a C string ends at its first zero unit, or at its end if it has none |
| TypeSupport.Convert | rmw_dps_cpp/include/rmw_dps_cpp/TypeSupport.hpp:55-76 | Under the C binding a string loses everything from its first zero unit on; under the C++ one nothing; and what is then written is what the binding writes for the original |
| TypeSupport.ConvertAll | rmw_dps_cpp/include/rmw_dps_cpp/TypeSupport_impl.hpp:155-172 | An array of C strings is converted string by string, in order |
| TypeSupport.PutNumber | rmw_dps_cpp/include/rmw_dps_cpp/CborStream.hpp:100-140 | A number puts its encoding or overflows, and is counted either way |
| TypeSupport.PutU16String | rmw_dps_cpp/include/rmw_dps_cpp/CborStream.hpp:151-161 | A wide string puts an array head and then each unit, counted even if the stream has overflowed |
| TypeSupport.PutSequence | rmw_dps_cpp/include/rmw_dps_cpp/CborStream.hpp:210-230 | A sequence puts an array head and its elements, bytes one byte string, counted even if the stream has overflowed |
| Streams.TxStream.Put | rmw_dps_cpp/include/rmw_dps_cpp/CborStream.hpp:100-107 | The size grows by the whole item whatever the status; the bytes are written only if the stream was good and has room, and else the stream has overflowed |
| Streams.TxStream.PutString | rmw_dps_cpp/include/rmw_dps_cpp/CborStream.hpp:142-149 | The same for a string, whose head may fit when its content does not |
| Streams.TxStream.MoveAssign | rmw_dps_cpp/include/rmw_dps_cpp/CborStream.hpp:79-93 | The stream takes over the other's status, size and buffer, and the other is left good and empty |
| Streams.EmitsBoth | rmw_dps_cpp/include/rmw_dps_cpp/CborStream.hpp:97-230 | Putting two items one after the other is putting both at once, through any overflow |
| TypeSupport.Deserialize | rmw_dps_cpp/include/rmw_dps_cpp/TypeSupport_impl.hpp:623-638 | The reader returns the value whose data items its bytes spell, and stops after them, or throws exactly if they spell none; the C binding then sees that value through its strings |
| TypeSupport.DeserializeRosMessage | rmw_dps_cpp/include/rmw_dps_cpp/TypeSupport_impl.hpp:515-599 | The loop over members reads them in order, and throws if the announced number is not theirs |
| TypeSupport.DeserializeField | rmw_dps_cpp/include/rmw_dps_cpp/TypeSupport_impl.hpp:343-381 | A field is read as a scalar, a fixed array or a sequence |
| TypeSupport.DeserializeSubmessages | rmw_dps_cpp/include/rmw_dps_cpp/TypeSupport_impl.hpp:469-513 | The elements of an array of messages are read after their announced number, or as many as the fixed size |
| TypeSupport.DeserializeArray | rmw_dps_cpp/include/rmw_dps_cpp/TypeSupport_impl.hpp:361-467 | Arrays as each binding reads them: vectors, exact fills, peek and then fill, and C strings copied from a vector |
| TypeSupport.DeserializeElement | rmw_dps_cpp/include/rmw_dps_cpp/TypeSupport.hpp:78-106 | A scalar is read and then seen through the binding's strings |
| TypeSupport.GetNumber | rmw_dps_cpp/include/rmw_dps_cpp/CborStream.hpp:287-388 | A number is read if it is in the range of its type, and else the reader throws |
| TypeSupport.GetU16String | rmw_dps_cpp/include/rmw_dps_cpp/CborStream.hpp:406-418 | A wide string is read from an array of units |
| TypeSupport.GetVector | rmw_dps_cpp/include/rmw_dps_cpp/CborStream.hpp:420-464 | A vector takes its length from the head; bytes come from a byte string |
| TypeSupport.Fill | rmw_dps_cpp/include/rmw_dps_cpp/CborStream.hpp:522-534 | The elements are read into place one after the other, up to the first that fails |
| TypeSupport.DecodeSequence | rmw_dps_cpp/include/rmw_dps_cpp/CborStream.hpp:522-546 | The array is filled exactly if the head announces its length |
| Streams.RxStream.GetString | rmw_dps_cpp/include/rmw_dps_cpp/CborStream.hpp:390-404 | A string is read and the cursor moves after it, or the reader throws |
| RoundTrip.PeekSeesLength | rmw_dps_cpp/include/rmw_dps_cpp/CborStream.hpp:481-494 | In front of any written array or byte string, whatever follows it, the length is peeked right and nothing is consumed |
| Cbor.StringRoundTrip | rmw_dps_cpp/include/rmw_dps_cpp/CborStream.hpp:142-149 | A string of any length is read back from its head and content (section 3.1 of RFC 8949) |
| Cbor.IntRoundTrip | rmw_dps_cpp/include/rmw_dps_cpp/CborStream.hpp:112-123 | An integer of either sign is read back from its shortest head |
| Messages.SeenIsSame | rmw_dps_cpp/include/rmw_dps_cpp/TypeSupport.hpp:49-169 | A binding sees a message unchanged if and only if it is the C++ one or no string in it holds a zero unit |
| Discovery.ParseUndoesPrint | rmw_dps_cpp/include/rmw_dps_cpp/custom_node_info.hpp:128-153 | Discovery string round trip: for every endpoint whose strings hold no '=' and whose types hold no ',', parsing its printed entry appends exactly its topic with exactly its types to the topics of its own kind and changes nothing else |
| Discovery.FoundInPrinted | rmw_dps_cpp/include/rmw_dps_cpp/custom_node_info.hpp:376-379 | Although `find` looks through the whole entry, it can find only the entry's own prefix, at the front, and the separator, after the topic |
| Discovery.ParseUndoesNamespace | rmw_dps_cpp/include/rmw_dps_cpp/custom_node_info.hpp:131-135 | The namespace entry is read back, whatever the namespace is |
| Discovery.ParseUndoesName | rmw_dps_cpp/include/rmw_dps_cpp/custom_node_info.hpp:131-140 | The name entry is read back if and only if it does not hold the namespace prefix, which is searched first |
| Discovery.ProcessTopicInfo | rmw_dps_cpp/include/rmw_dps_cpp/custom_node_info.hpp:371-400 | The topic and its types are appended if the prefix is found, and nothing is otherwise |
| Discovery.SplitTypes | rmw_dps_cpp/include/rmw_dps_cpp/custom_node_info.hpp:386-396 | The loop over the types ends, with the parts between commas |
| Discovery.ReadEntry | rmw_dps_cpp/include/rmw_dps_cpp/custom_node_info.hpp:129-152 | One string changes the view by the first of the six searches that finds something |
| Discovery.ReadPayload | rmw_dps_cpp/include/rmw_dps_cpp/custom_node_info.hpp:128-153 | The loop folds all strings of a payload into a fresh view |
| Strings.SplitUndoesJoin | rmw_dps_cpp/include/rmw_dps_cpp/custom_node_info.hpp:387-396 | Splitting at commas gives back the joined parts in order, if no part holds a comma |
| NodePayload.PeerHoldsLiveEndpoints | rmw_dps_cpp/src/rmw_node.cpp:32-80 | Whole-run convergence, for every name: after any creations and destructions a peer that received the last payload holds, kind by kind, exactly the live endpoints' topics with their types, each as often as it is live; it holds the name and the namespace if and only if the name entry does not hold the namespace prefix |
| NodePayload.PayloadIsHeaderAndLive | rmw_dps_cpp/src/rmw_node.cpp:51-80 | At every point of a run the payload is the namespace and name strings and then the printed live endpoints, each as often as it is live |
| NodePayload.PrintIsInjective | rmw_dps_cpp/src/rmw_publisher.cpp:167-168 | Two printable endpoints with the same discovery name are the same endpoint, so erasing by string erases the right one |
| NodePayload.ReceivesPayload | rmw_dps_cpp/include/rmw_dps_cpp/custom_node_info.hpp:124-127 | The bytes of a payload bring a peer exactly its strings |
| NodePayload.PublishDiscoveryPayload | rmw_dps_cpp/src/rmw_node.cpp:32-42 | The bytes handed to the network are those of an array of text strings, whether or not the first buffer overflowed |
| NodePayload.ReceivedIsSpelled | rmw_dps_cpp/include/rmw_dps_cpp/custom_node_info.hpp:124-127 | An announcement is received only if its bytes spell an array of text strings, and then as those strings; otherwise decoding throws |
| NodePayload.SpelledIsReceived | rmw_dps_cpp/include/rmw_dps_cpp/custom_node_info.hpp:124-127 | And whatever spells one is received |
| NodePayload.ReceiveDiscoveryPayload | rmw_dps_cpp/include/rmw_dps_cpp/custom_node_info.hpp:124-154 | The decoding half of the callback |
| NodePayload.LocalNode.constructor | rmw_dps_cpp/src/rmw_node.cpp:244-248 | A new node publishes "namespace=" with its namespace and "name=" with its name |
| Discovery.PrintedText | rmw_dps_cpp/src/rmw_publisher.cpp:167-168 | The discovery names, spelled out for each kind of endpoint |
| NodePayload.LocalNode.AddDiscoveryTopic | rmw_dps_cpp/src/rmw_node.cpp:60-66 | The string is appended, and what was published is again the encoding of the payload |
| NodePayload.LocalNode.RemoveDiscoveryTopic | rmw_dps_cpp/src/rmw_node.cpp:68-80 | The first equal string is erased and the rest published, or nothing happens |
| NodePayload.RemoveFirstRemovesOne | rmw_dps_cpp/src/rmw_node.cpp:72-75 | Erasing takes exactly one copy of the string |
| MatchedSets.MatchedIsIntroducedAfterRegistration | rmw_dps_cpp/include/rmw_dps_cpp/custom_node_info.hpp:177-214 | Incremental matched sets, over every history: a node is in an endpoint's set exactly if it lists the topic since an announcement applied after the endpoint was registered; the stored count is the size of the set |
| MatchedSets.MatchedIsListed | rmw_dps_cpp/include/rmw_dps_cpp/custom_node_info.hpp:183-188 | No set holds a node whose last applied view does not list the topic |
| MatchedSets.EarlyEndpointIsComplete | rmw_dps_cpp/src/rmw_publisher.cpp:173-176 | For an endpoint registered before any announcement the set is what recomputing it gives |
| DiscoveryRuns.MatchedSetsAreExact | rmw_dps_cpp/include/rmw_dps_cpp/custom_node_info.hpp:155-214 | The same exactness after every run in which the critical sections of the callback interleave with endpoint creation and destruction, in every phase of the callback |
| DiscoveryRuns.MapIsLastAnnounced | rmw_dps_cpp/include/rmw_dps_cpp/custom_node_info.hpp:155-176 | Over every run, the map holds a node exactly if the last that was heard from it was an announcement, and then what that announced |
| DiscoveryRuns.HistoryFollowsActions | rmw_dps_cpp/src/rmw_subscription.cpp:177-180 | The registrations and removals in the history of an index are exactly those of the run, in their order: publishers are told of subscriptions and subscriptions of publishers |
| DiscoveryRuns.QuietSetsFollowTheMap | rmw_dps_cpp/include/rmw_dps_cpp/custom_node_info.hpp:155-214 | Incremental equals recomputed: between callbacks, after any losses, repeats and departures, a set holds only nodes whose last announcement lists the topic and that have not departed since, and for an endpoint registered before any contact all of them |
| DiscoveryRuns.MatchedCountIsBounded | rmw_dps_cpp/include/rmw_dps_cpp/custom_node_info.hpp:237-259 | Cross-index bound: with no callback in progress an endpoint's matched count is at most the number of endpoints on its topic over the map |
| DiscoveryRuns.CountIsEndpoints | rmw_dps_cpp/include/rmw_dps_cpp/custom_node_info.hpp:237-247 | The sum over the map is the number of endpoints on the topic, each a node and a position in its list |
| DiscoveryRuns.TriggeredOncePerChange | rmw_dps_cpp/include/rmw_dps_cpp/custom_node_info.hpp:215-222 | Change notification: the graph condition is triggered exactly once per change of the map, and only when both indexes have been told what the map holds |
| ChangeNotification.NoChangeGoesUnnoticed | rmw_dps_cpp/include/rmw_dps_cpp/custom_node_info.hpp:155-222 | Callbacks and waits together: when no callback and no trigger is under way and the graph condition is not triggered, either the map never changed or some report kept the condition while the map already was what it is now |
| ChangeNotification.ReportsFindTheirChanges | rmw_dps_cpp/src/rmw_wait.cpp:211-220 | At every report of every wait the map has every change whose trigger was raised before, so a waiter that keeps the condition and then looks finds them all |
| ChangeNotification.IndexesFindTheirChanges | rmw_dps_cpp/include/rmw_dps_cpp/custom_node_info.hpp:177-222 | And each index holds the topics of one version of the map that has all those changes |
| ChangeNotification.RunKeepsInv | rmw_dps_cpp/include/rmw_dps_cpp/custom_node_info.hpp:215-222 | Over every run of both, flags raised and triggers under way add up to the triggers of the callback |
| DiscoveryRuns.TriggerIffChanged | rmw_dps_cpp/include/rmw_dps_cpp/custom_node_info.hpp:158-176 | The flag computed with the map is set exactly if the map changed |
| DiscoveryRuns.RunKeepsInv | rmw_dps_cpp/include/rmw_dps_cpp/custom_node_info.hpp:155-222 | The invariant behind the four results above holds after every run |
| DiscoveryRuns.CountWithout | rmw_dps_cpp/include/rmw_dps_cpp/custom_node_info.hpp:237-247 | The count over the map does not depend on the order of its nodes |
| NodeDiscovery.NodeListener.OnDiscovery | rmw_dps_cpp/include/rmw_dps_cpp/custom_node_info.hpp:118-223 | The callback in place: a departure leaves no entry, a decoded announcement leaves exactly what it says, every other entry stays, both indexes change as the machine's steps say, and the trigger is raised exactly if the map changed; where decoding throws nothing changes |
| NodeDiscovery.NodeListener.ApplyAnnouncement | rmw_dps_cpp/include/rmw_dps_cpp/custom_node_info.hpp:155-222 | The same for a decoded announcement or a departure |
| NodeDiscovery.NodeListener.UpdateEntry | rmw_dps_cpp/include/rmw_dps_cpp/custom_node_info.hpp:155-176 | The critical section of the map: the entry of one node is replaced or removed, the others stay, and the flag says whether the map changed |
| NodeDiscovery.NodeListener.UpdatePublishers | rmw_dps_cpp/include/rmw_dps_cpp/custom_node_info.hpp:177-195 | The critical section of the publishers: exactly the machine's step, and the subscriptions are untouched |
| NodeDiscovery.NodeListener.UpdateSubscribers | rmw_dps_cpp/include/rmw_dps_cpp/custom_node_info.hpp:196-214 | The critical section of the subscriptions: exactly the machine's step, and the publishers are untouched |
| NodeDiscovery.NodeListener.TopicDifference | rmw_dps_cpp/include/rmw_dps_cpp/custom_node_info.hpp:402-419 | The topics only in the new list, and those only in the old one |
| NodeDiscovery.NodeListener.Count | rmw_dps_cpp/include/rmw_dps_cpp/custom_node_info.hpp:237-271 | The number of endpoints with this topic over all nodes |
| NodeDiscovery.EndpointIndex.Register | rmw_dps_cpp/src/rmw_publisher.cpp:173-176 | A new endpoint starts with an empty set |
| NodeDiscovery.EndpointIndex.Unregister | rmw_dps_cpp/src/rmw_publisher.cpp:248-251 | The endpoint leaves the index and no other changes |
| NodeDiscovery.EndpointIndex.UpdateTopics | rmw_dps_cpp/include/rmw_dps_cpp/custom_node_info.hpp:183-194 | The nested loops over topics and endpoints change exactly the endpoints on those topics |
| NodeDiscovery.EndpointIndex.UpdateEach | rmw_dps_cpp/include/rmw_dps_cpp/custom_node_info.hpp:184-187 | Every endpoint of one topic gains or loses the node and stores the new size |
| Findings.LatePublisherMissesSubscription | rmw_dps_cpp/src/rmw_publisher.cpp:173-176 | A run in which a publisher created after the only announcement of a matching subscription ends with an empty set while the map lists the subscription |
| Findings.NameTakenForNamespace | rmw_dps_cpp/include/rmw_dps_cpp/custom_node_info.hpp:131-140 | A name entry that holds the namespace prefix sets the namespace and no name |
| Findings.OverTheBoundByOne | rmw_dps_cpp/include/rmw_dps_cpp/TypeSupport_impl.hpp:150-152 | A C string over its bound is accepted if and only if it is one unit too long |
| Findings.TwoUnitsPassABoundOfOne | rmw_dps_cpp/include/rmw_dps_cpp/TypeSupport_impl.hpp:150-152 | Two units pass a bound of one |
| Findings.WideOverTheBoundByOne | rmw_dps_cpp/include/rmw_dps_cpp/TypeSupport_impl.hpp:187-189 | And so is a wide C string |
| Findings.UncheckedStrings | rmw_dps_cpp/include/rmw_dps_cpp/TypeSupport_impl.hpp:154-173 | Arrays of strings, and strings of the C++ binding, are always accepted |
| Findings.MessagesWithinTheirBound | rmw_dps_cpp/include/rmw_dps_cpp/TypeSupport_impl.hpp:225-228 | A bounded sequence of messages is accepted exactly if it is within its bound and every message is accepted |
| Findings.SequenceOfMessagesIsNotOneItem | rmw_dps_cpp/include/rmw_dps_cpp/TypeSupport_impl.hpp:231-232 | A message with one element in a sequence of messages, whose encoding is not one CBOR item |
| Findings.TakingAgainDoesNotRestore | rmw_dps_cpp/src/rmw_request.cpp:120 | A run in which a response throws and the same request is taken again, which ends with the request recorded and without its publication |
| Listeners.Listener.Push | rmw_dps_cpp/include/rmw_dps_cpp/Listener.hpp:47-73 | The message is queued in both branches, and the attached wait set, if any, is notified |
| Listeners.Listener.TakeNextData | rmw_dps_cpp/include/rmw_dps_cpp/Listener.hpp:125-137 | The front of the queue is moved out, or the queue is empty |
| Listeners.GuardCondition.Trigger | rmw_dps_cpp/src/types/guard_condition.hpp:34-50 | The flag is set in both branches, and the attached wait set, if any, is notified |
| Listeners.GuardCondition.GetHasTriggered | rmw_dps_cpp/src/types/guard_condition.hpp:74-78 | The exchange returns the flag and clears it |
| WaitProtocol.NoLostWakeup | rmw_dps_cpp/src/rmw_wait.cpp:113-169 | No lost wakeup, in every reachable state: if the waiter sleeps and an entry has something, a call on that entry stands between its change and its notification, can go on whatever the others do, and wakes the waiter in at most two steps; this includes calls that read a null `conditionMutex_` before the attach |
| WaitProtocol.NoDeadlock | rmw_dps_cpp/src/rmw_wait.cpp:171-222 | Deadlock freedom: no reachable state has a cycle of lock waits, and from every thread in a call or a wait, and not asleep, following the locks leads to a thread that can go on |
| WaitProtocol.CondHolderIsEnabled | rmw_dps_cpp/include/rmw_dps_cpp/Listener.hpp:61-70 | Whoever holds the wait set's mutex can always go on |
| WaitProtocol.WaitKeepsAnEntry | rmw_dps_cpp/src/rmw_wait.cpp:151-222 | A wait that reports no timeout keeps an entry, if nobody else took from its listeners since its check |
| WaitRuns.TimeoutsExpire | rmw_dps_cpp/src/rmw_wait.cpp:162-165 | Over every run, a wait with a positive timeout reports it only if its time has ended a sleep since it began |
| WaitRuns.RoundsOfModes | rmw_dps_cpp/src/rmw_wait.cpp:157-168 | A wait with a timeout of zero looks at its entries once, and only a wait with a positive timeout looks for a last time |
| WaitRuns.RoundsLeadOn | rmw_dps_cpp/src/rmw_wait.cpp:157-168 | After a first check that finds nothing, a wait with a timeout of zero gives up and any other evaluates the predicate; after that it sleeps, and after the last check it gives up |
| WaitRuns.FindingEndsTheWait | rmw_dps_cpp/src/rmw_wait.cpp:151-168 | A check that finds something ends the wait without a timeout, in whatever round |
| WaitRuns.WakingLooksAgain | rmw_dps_cpp/src/rmw_wait.cpp:161-165 | A sleep ends by a notification, spuriously, or with a positive timeout by its time; the waiter takes the mutex back and looks again, for the last time exactly if its time is over |
| WaitRuns.WaitIsAsBegun | rmw_dps_cpp/src/rmw_wait.cpp:113-143 | A wait watches the entries it was given, all of them and in their order |
| WaitRuns.ResultsAreReported | rmw_dps_cpp/src/rmw_wait.cpp:178-220 | When a wait returns, there was one report for each entry in order, and an entry is left in its array exactly if its report has kept it |
| WaitRuns.ReportsFollowEvents | rmw_dps_cpp/src/rmw_wait.cpp:178-220 | A report keeps an entry exactly if, by the events before, more was pushed than taken, or a trigger has not been kept by a report |
| WaitRuns.PendingFollowsEvents | rmw_dps_cpp/include/rmw_dps_cpp/Listener.hpp:58-72 | A listener has as many messages as were pushed and not taken; a flag is set exactly if it was triggered and not reported |
| ChangeNotification.EveryPushArrives | rmw_dps_cpp/include/rmw_dps_cpp/Listener.hpp:58-72 | Over every run, a source was raised once for every call that pushes to it or triggers it, but for those still on their way |
| WaitProtocol.ModesAreKept | rmw_dps_cpp/src/rmw_wait.cpp:157-169 | A wait without a timeout never reports one, a wait with a timeout of zero never sleeps, and only a positive timeout ends a sleep by its time |
| WaitProtocol.DecidesOnlyWhenEmpty | rmw_dps_cpp/src/rmw_wait.cpp:145-168 | The waiter sleeps or gives up only in a state in which all its entries are empty at once, although it looks at them one by one |
| WaitProtocol.ReportsAreTruthful | rmw_dps_cpp/src/rmw_wait.cpp:178-220 | In every run, over successive waits, an entry is nulled exactly if its source had nothing at that moment by the history of its pushes, triggers, takes and reports; a guard flag is cleared only by a report that keeps the entry |
| WaitProtocol.NextReportKeeps | rmw_dps_cpp/src/types/guard_condition.hpp:74-78 | No trigger is dropped: after a trigger or push, and unless somebody takes the data, the next report of the source keeps its entry, in this wait or a later one |
| WaitProtocol.GuardsAreNotPopped | rmw_dps_cpp/src/types/guard_condition.hpp:68-78 | Nothing but a report takes a trigger away |
| WaitProtocol.AttachedWhileWaiting | rmw_dps_cpp/src/rmw_wait.cpp:178-220 | While the waiter sleeps exactly its entries are attached, and once it has returned no source holds the wait set's mutex |
| WaitProtocol.CallKeepsCheck | rmw_dps_cpp/include/rmw_dps_cpp/Listener.hpp:61-71 | No step of a call puts something into an entry the waiter has seen empty, unless the waiter sleeps and the call will notify |
| WaitProtocol.RunKeepsInv | rmw_dps_cpp/src/rmw_wait.cpp:113-222 | The invariant on owners, attachment, checks, results and history holds after every run |
| WaitSets.CheckWaitSetForData | rmw_dps_cpp/src/rmw_wait.cpp:27-75 | The answer is whether any listener of the three arrays has data or any guard condition is triggered; null entries are skipped |
| WaitSets.AttachAll | rmw_dps_cpp/src/rmw_wait.cpp:113-143 | Every listener and guard condition of the four arrays gets the wait set's mutex and condition variable |
| WaitSets.FilterListeners | rmw_dps_cpp/src/rmw_wait.cpp:178-187 | Every listener is detached; every entry with data stays and every other is nulled in place |
| WaitSets.FilterGuards | rmw_dps_cpp/src/rmw_wait.cpp:211-220 | Every guard condition is detached and cleared; an entry is kept exactly if its flag was set and no earlier entry took it |
| WaitSets.RmwWait | rmw_dps_cpp/src/rmw_wait.cpp:81-223 | Alone, a wait finds something exactly if something was ready, and else times out or, without a timeout, is left asleep with everything attached; when it returns it leaves an entry exactly if something was ready, and nothing attached or triggered |
| WaitSets.KeptIffTriggered | rmw_dps_cpp/src/rmw_wait.cpp:211-220 | Something is left of the guard conditions exactly if one was triggered, however often it is listed |
| Ledger.DeliveredIsTakenThenQueued | rmw_dps_cpp/include/rmw_dps_cpp/Listener.hpp:58-72 | Over every run, messages are taken in the order of their delivery: delivered is taken and then queued |
| Ledger.QueueIsTheRest | rmw_dps_cpp/include/rmw_dps_cpp/Listener.hpp:125-137 | The queue is what was delivered less its first messages, one for each take that had something |
| Ledger.RequestsArePending | rmw_dps_cpp/src/rmw_request.cpp:106-121 | Over every run, the pending ids are exactly those taken and not answered since |
| Ledger.OpenRequestHolds | rmw_dps_cpp/src/rmw_request.cpp:120 | A pending request holds the publication of the take that opened it, whatever was taken under the same id later, because `emplace` does not overwrite; an exception while answering loses it for good |
| Ledger.ResponseReachesItsRequest | rmw_dps_cpp/src/rmw_response.cpp:104-127 | The next response that ends is an acknowledgement of that publication, and the id is not pending any more |
| Ledger.TakesAreAccountedFor | rmw_dps_cpp/src/rmw_response.cpp:104-127 | Conservation, over every run and id: every request taken is acknowledged once, dropped once or still held; so acknowledgements never exceed takes |
| Ledger.ServiceInfo.TakeRequest | rmw_dps_cpp/src/rmw_request.cpp:103-123 | The decoded message of the front of the queue, with a header of its publication's number and UUID, or sixteen zeros without one; the id is recorded then; where decoding throws the message is gone from the queue |
| Ledger.HeadersTellApart | rmw_dps_cpp/src/rmw_request.cpp:111-116 | Two publications with UUIDs have the same id exactly if UUID and number are the same |
| Ledger.OnlyTheSameIdIsDropped | rmw_dps_cpp/src/rmw_request.cpp:120 | A request is dropped on taking it only if one with the same UUID and number was taken before and not answered |
| Ledger.ServiceInfo.SendResponse | rmw_dps_cpp/src/rmw_response.cpp:104-129 | An unknown id is an error that changes nothing; otherwise the encoded response acknowledges the recorded publication and the request is erased whatever the library answers; where serializing throws the request stays, without its publication |
| Demangle.DemangleUndoesCreate | rmw_dps_cpp/src/demangle.cpp:26-46 | Type-name round trip, for every namespace and name: demangling a printed type gives the slash form of the namespace and then the name, if and only if "dps_::" does not occur in the namespace with its "::" |
| Demangle.DemangleUndoesCreateForRequests | rmw_dps_cpp/src/demangle.cpp:49-90 | The request type of any service, even one whose name holds a suffix, demangles to that service's name, under exactly the same condition |
| Demangle.DemangleUndoesCreateForResponses | rmw_dps_cpp/src/demangle.cpp:49-90 | And so does its response type |
| Demangle.TypeNameText | rmw_dps_cpp/src/type_support_common.hpp:75-79 | A printed type, spelled out |
| Demangle.OtherTypesAreUnchanged | rmw_dps_cpp/src/demangle.cpp:29-39 | A type that does not end in an underscore, or without "dps_::", is left as it is |
| Demangle.OtherTypesAreNoServices | rmw_dps_cpp/src/demangle.cpp:52-83 | A type without "dps_::", or without either suffix, is no service type |
| Demangle.SuffixBeforeTheEnd | rmw_dps_cpp/src/demangle.cpp:62-89 | A service type with something after its suffix is demangled all the same |
| Demangle.SlashedNamespace | rmw_dps_cpp/src/demangle.cpp:41-42 | For a namespace of components without colons the slash form has one slash for each "::" |
| Demangle.FirstDps | rmw_dps_cpp/src/type_support_common.hpp:75-79 | In a printed type "dps_::" is first found where it occurs in the qualifier, or else where it was put; no occurrence straddles the two |
| Demangle.DemangleServiceType | rmw_dps_cpp/src/demangle.cpp:49-90 | The loop over the suffixes stops at one that ends the type, and goes on with the position of one that does not |

## Left out

- The DPS network: publishing, subscribing, acknowledging, UUIDs, node start and shutdown. Delivery
  is a step with any payload, and the library's answer to an acknowledgement is a parameter.
- Memory layout, offsets, placement new, C sequence allocation and freeing, running out of memory,
  and C strings without data. Values are abstract.
- The meaning of floating-point numbers: `float` and `double` are 32-bit and 64-bit patterns.
- TypeSupport.DeserializeArray: a C array of strings longer than the bytes announce is read out of
  bounds by the source; the model fails there. A longer announced array is cut, as in the source.
- WellFormed.ReadItem: reads items of definite length, since the encoder writes no others.
- NodePayload.LocalNode.AddDiscoveryTopic: states what a publish that succeeds does; after one that
  fails the source keeps the string and reports an error.
- Discovery.ParseUndoesPrint: entries the repository itself prints. Entries without "&types=" are
  parsed as the source parses them, but nothing more is proved about them.
- NodeDiscovery.NodeListener.ApplyAnnouncement: callbacks of one node do not overlap; the
  interleavings with endpoint creation and destruction are in `DiscoveryRuns`.
- NodeDiscovery.NodeListener.TopicDifference: leaves the order of the two vectors open; the loops
  over them do not depend on it.
- WaitSets.RmwWait: runs alone; `WaitProtocol` has the concurrency, and entries listed twice in both.
  No two of its arrays are the same array: the source would follow an entry it has just nulled. The
  argument checks at its start, which only report errors, are not in it.
- WaitProtocol.NoLostWakeup: one waiter for each wait set and each source in at most one wait, as
  the repository assumes; reading `hasData` without the lock is one atomic step.
- Demangle.DemangleUndoesCreate: an empty type string, whose last character the source would read,
  is outside the precondition of `DemangleIfRosType`.
- ChangeNotification.NoChangeGoesUnnoticed: only the callback triggers the graph condition, as in
  this repository.
- `rmw_take_response` and `rmw_send_request`, which take and publish like the functions modelled.
- The names-and-types queries, copying results into C arrays, QoS strings, gids, init and shutdown,
  logging, null-argument checks and unimplemented stubs.
