# Verification of the IoT client

A model of the protocol core of the client (MQTT, MQTT-SN, CoAP, AMQP 1.0 and the
libraries beneath them) with proofs of what it promises.  The whole project is
checked by `dafny verify dfyconfig.toml`.

| file | what it is about |
|---|---|
| `MqttSession.dfy`, `MqttSystem.dfy`, `MqttSteps.dfy`, `MqttRuns.dfy`, `MqttIds.dfy` | the MQTT client's table of unacknowledged packets, its runs against a broker over a channel that loses, duplicates and reorders, and what happens when ids run out |
| `SnSession.dfy`, `SnSystem.dfy`, `SnSteps.dfy`, `SnRuns.dfy` | the same for MQTT-SN, with topic registration and packet objects that are renumbered while they are stored |
| `MqttHistory.dfy`, `MqttProgress.dfy`, `SnHistory.dfy` | what every step of a run does, told by the actions: what is sent and passed up, which requests are open, which topics are known, what can still be completed |
| `MqttWire.dfy`, `SnWire.dfy`, `Text.dfy` | the packets of a run as octets on the wire |
| `HashMap.dfy` | the string hash map: chained buckets over linked nodes, resizing, iteration |
| `AmqpTlv.dfy`, `AmqpList.dfy`, `AmqpArguments.dfy`, `AmqpEncoder.dfy` | the AMQP type system and its recursive decoder, packed lists, performatives, frames |
| `AmqpDecoder.dfy`, `AmqpPacked.dfy`, `AmqpFrame.dfy` | decoding frames, and what comes back of an encoded one |
| `AmqpOctets.dfy`, `AmqpFields.dfy` | what each octet received means and which octets are sent, as numbers of the standard |
| `AmqpStandard.dfy`, `AmqpLongTag.dfy` | the encoded argument lists against the standard |
| `Framing.dfy`, `Pieces.dfy`, `Reads.dfy` | splitting a receive buffer into AMQP frames and MQTT packets, and a stream into reads |
| `MqttReceive.dfy`, `MqttCut.dfy` | from one read of the MQTT client to its handlers |
| `DyadSpec.dfy`, `Dyad.dfy`, `DyadRuns.dfy` | line splitting and the write queue of the socket library |
| `MqttCodec.dfy`, `SnCodec.dfy`, `Coap.dfy`, `Base64.dfy`, `Utf8.dfy` | byte codecs |
| `MqttStandard.dfy`, `SnStandard.dfy`, `CoapStandard.dfy`, `Taking.dfy` | receivers written down from the three standards, what they read of what is encoded, and what the client makes of what they accept |
| `Octets.dfy`, `Buffers.dfy` | octets, numbers in network order, writing through an index |

Code that changes things step by step is written as methods over arrays, objects and
loops, each proved against a function on values; the laws are lemmas about those
functions.  In the protocol modules the state of a client is a value, the class
beside it updates the same state in place, and a run is a sequence of states and
actions.

Conventions.  A `char` is an octet 0..255.  `get_short` is unsigned, as
src/helpers.h:31 declares it; where the program stores it in a `short` the value
wraps.  Each handler is one atomic step.  What a decoder or a handler reads outside a
buffer, or through a NULL or unset pointer, is an outcome of its own, not a
precondition, and so is what an encoder writes past its buffer.
The channel is the set of everything ever sent; GLib's tables are finite maps;
`save_message` appends to a log; clocks, `malloc`, `realloc`, `send` and the order in
which a table is walked are parameters.

Where the code departs from its documentation or from the standards the code is
followed, and the exact extent is a lemma: four-octet numbers and LIST_32 in AMQP
(`AmqpFrame.FrameRoundTrip`, `AmqpTlv.List32Loses`), extension thresholds, long lengths
and the type mask in CoAP (`Coap.CoapRoundTrip`), lengths and payloads through 16 bits in
CoAP and MQTT-SN (`Coap.LongPayloadIsLost`, `SnCodec.LengthIsDeclared`), headers of long
identifiers in MQTT-SN (`SnCodec.LengthAgrees`), wrong and missing NULL tests
(`SnRuns.FaultsExactly`, `MqttRuns.EveryCastIsSafe`), the return code of an MQTT-SN
PUBACK, which is not looked at (`SnRuns.RecordedWasAccepted`, `SnRuns.RefusedIsRecorded`),
the one-octet length in the MQTT splitting loop (`Framing.PacketsAreDelivered`,
`MqttCut.CutRecordsUnaccepted`), duplicates of a QoS 2 publish
(`MqttRuns.DeliveredAsOftenAsHanded`), the size field of an encoded AMQP list, which does
not count the count field (`AmqpStandard.ListIsNoValue`), the byte order of long binary
fields (`AmqpList.BinaryIsEncodedExactly`) the limit of `remaining_length`
(`MqttCodec.RemainingLengthIsShort`), the CONNECT flags of user name and password, which are
each other's, and the reserved bit of PINGREQ and DISCONNECT (`MqttStandard.ReadsAsMeant`),
the marker of a CoAP message without a payload (`CoapStandard.ReadsAsMeant`), the eight
octets of an AMQP descriptor, of which the first is read (`AmqpFields.DescriptorMeans`), and
a failing SUBACK, which leaves an earlier subscription (`MqttHistory.TopicsOverRun`).  Further departures that
the model keeps: the decoded number of sections is one short
(src/amqp/amqp_parser.c:123), the third element of DETACH is looked for in the place
of the second (src/amqp/header_factory.c:900), an MQTT-SN REGISTER is stored under key 0
(src/mqttsn/mqtt_sn_timers.c:185-191), and the MQTT-SN topic maps are NULL until an
accepted CONNACK makes them, so that what is granted before is not learnt, and every
further one makes them anew (src/mqttsn/mqtt_sn_timers.c:114-118).

Runs start after one CONNECT and use fewer than 65536 packet ids; `MqttIds.IdsRunOut`
and `MqttIds.SendKeepsAll` show why.

## Model

| member | source | states |
|---|---|---|
| `MqttSession.MqttClient.SendConnect` | src/mqtt/mqtt_client.c:95-126 | After the first CONNECT the table holds it under key 0 and nothing else has happened; the state is the value the runs start from |
| `MqttSession.MqttClient.Publish` | src/mqtt/mqtt_client.c:168-197 | QoS 0 is fired and recorded at once; higher QoS takes the next packet id, is fired and parked under it, and is not recorded |
| `MqttSession.MqttClient.Subscribe` | src/mqtt/mqtt_client.c:128-146 | Takes the next packet id, parks the packet under it, then fires it |
| `MqttSession.MqttClient.Unsubscribe` | src/mqtt/mqtt_client.c:148-166 | The same for UNSUBSCRIBE |
| `MqttSession.MqttClient.AddMessageInMap` | src/mqtt/mqtt_timers.c:137-180 | Inserts the packet with its time stamp under its own id, or under 0 when its kind has none |
| `MqttSession.MqttClient.ProcessRx` | src/mqtt/mqtt_client.c:281-420 | Whatever packet arrives, the fields afterwards are those of the value specification: what is fired, recorded, delivered, removed, and nothing else, which the lemmas of MqttHistory tell from the packets alone; outside that are only stored packets of another kind than the handler casts them to, and a PUBLISH without content, both faults of the value specification |
| `MqttSession.MqttClient.ResendPass` | src/mqtt/mqtt_timers.c:66-83 | One pass fires each packet older than ten seconds exactly once, in the order the table is walked, and changes nothing else |
| `MqttSession.ResendOnlyFires` | src/mqtt/mqtt_timers.c:66-83 | A pass in any order leaves table, records and counter alone, and the packets on the wire afterwards are those from before and the resent ones |
| `MqttRuns.InvHolds` | src/mqtt/mqtt_client.c:281-420 | The protocol invariant (keys are ids, ids are never reused, acknowledgements on the channel have a cause, records were accepted) holds in every state of every run against a lossy, duplicating, reordering channel |
| `MqttRuns.RecordedWasAccepted` | src/mqtt/mqtt_client.c:322-358 | Sections 4.3.2 and 4.3.3 of MQTT 3.1.1: every QoS 1 or 2 publish recorded as sent was accepted by the broker, with exactly the content the user submitted under that id |
| `MqttRuns.RecordedOnce` | src/mqtt/mqtt_client.c:322-358 | No such publish is recorded twice, however often PUBACK or PUBCOMP is duplicated |
| `MqttRuns.InTableOrRecorded` | src/mqtt/mqtt_client.c:168-197 | A submitted publish is in the table, unchanged, if and only if it has not been recorded |
| `MqttRuns.KeysMatchPackets` | src/mqtt/mqtt_timers.c:137-197 | The submitted ids are exactly 1 to the counter, every key is the id inside its packet, and an entry is the packet submitted under that id |
| `MqttRuns.EveryCastIsSafe` | src/mqtt/mqtt_client.c:310-400 | In every reachable state whatever packet of the channel is handled next finds an entry of the kind its handler casts it to; of pointers the handler follows or hands on, one is unset if and only if the packet is a PUBLISH without content |
| `MqttRuns.RetiredIsNeverResent` | src/mqtt/mqtt_client.c:322-400 | What PUBACK, PUBCOMP, SUBACK or UNSUBACK has retired, publish or not, never comes back into the table, and nothing that a resend pass at any later time appends to what was sent has its id |
| `MqttRuns.RecordedIsNeverResent` | src/mqtt/mqtt_timers.c:66-83 | So no resend pass at any later time changes the table or fires a publish that was recorded |
| `MqttRuns.DeliveredAsOftenAsHanded` | src/mqtt/mqtt_client.c:310-321 | A publish with content is delivered exactly as often as the channel hands it over, whatever its QoS: a QoS 2 publish is delivered once if and only if it arrives once |
| `MqttHistory.AnswersExactly` | src/mqtt/mqtt_client.c:310-358 | In every run a PUBLISH is answered with exactly PUBACK at QoS 1, PUBREC at QoS 2 and nothing at QoS 0, a PUBREC with PUBREL, a PUBREL with PUBCOMP, all with its id, every other packet with nothing; a PUBLISH, and nothing else, is passed up |
| `MqttHistory.UnacceptableEnds` | src/mqtt/mqtt_client.c:405-416 | What only a client may send makes this one send DISCONNECT and end |
| `MqttHistory.RequestsAreSent` | src/mqtt/mqtt_client.c:128-197 | Each request of the user is on the wire at once with its fields, under the next id, or 0 for a QoS 0 publish, which is the only one recorded then |
| `MqttHistory.OpenUntilAcknowledged` | src/mqtt/mqtt_client.c:322-400 | Over every run: a request is in the table if and only if no PUBACK, PUBCOMP, SUBACK or UNSUBACK with its id has been handled, and a publish is recorded if and only if one has |
| `MqttHistory.ConnectWaits` | src/mqtt/mqtt_client.c:292-308 | CONNECT is in the table if and only if no CONNACK has been handled |
| `MqttHistory.TopicsOverRun` | src/mqtt/mqtt_client.c:359-400 | Over every run: a topic is subscribed to with QoS q if and only if the last SUBACK without failure or UNSUBACK that found a request for it was a SUBACK for a SUBSCRIBE with q |
| `MqttHistory.StampIsRequestTime` | src/mqtt/mqtt_timers.c:137-180 | An entry bears the time of the request that was given its id |
| `MqttHistory.ResendsTheOld` | src/mqtt/mqtt_timers.c:66-83 | A resend pass fires, once each and as first sent, exactly the entries more than 10 seconds old, and changes nothing else |
| `MqttProgress.CanBeRecorded` | src/mqtt/mqtt_client.c:322-358 | From every reachable state in which the client goes on, a stored publish of QoS 1 or 2 can still be acknowledged and recorded |
| `MqttProgress.CanBeSubscribed` | src/mqtt/mqtt_client.c:359-383 | So can a stored SUBSCRIBE be granted, which subscribes to its topic with its QoS |
| `MqttProgress.CanBeUnsubscribed` | src/mqtt/mqtt_client.c:384-400 | And a stored UNSUBSCRIBE, which ends the subscription |
| `MqttIds.SendKeepsAll` | src/mqtt/mqtt_timers.c:137-180 | Every entry that waits survives a PUBLISH above QoS 0, a SUBSCRIBE or an UNSUBSCRIBE, and one more waits, if and only if the next id modulo 65536 is no key of the table |
| `MqttIds.IdsRunOut` | src/mqtt/mqtt_client.c:180 | Why runs are bounded to fewer than 65536 ids: 65537 publishes lead to a state in which the first, which the broker has accepted, is neither stored nor recorded, and the last, which it has not, has been recorded by the PUBACK of the first |
| `SnSession.SnClient.SendSnMessage` | src/mqttsn/mqtt_sn_client.c:164-193 | With a known topic id the message is published; otherwise it is parked under id n and REGISTER n+1 is sent |
| `SnSession.SnClient.SendSnPublish` | src/mqttsn/mqtt_sn_client.c:210-228 | Renumbers the shared packet object in place, fires it, and records it (QoS 0) or parks it under its new id; the entry it was reached through may be the same object |
| `SnSession.SnClient.HandleRegack` | src/mqttsn/mqtt_sn_client.c:422-448 | Finds the message under one less than the REGACK's id; on acceptance both maps learn the topic, the object is renumbered and published and the old entry removed; on refusal it is given up |
| `SnSession.SnClient.ProcessRx` | src/mqttsn/mqtt_sn_client.c:363-575 | Every handler leaves the fields and packet objects as the value specification says, which the lemmas of SnHistory tell from the packets alone, and no object is stored under two keys afterwards; outside that are the faults that SnRuns.FaultsExactly lists |
| `SnSession.SnClient.AddPublishInMap` | src/mqttsn/mqtt_sn_timers.c:159-193 | The table holds the packet object under the id it carries, read through the object |
| `SnSession.SnClient.RemoveMessageFromMap` | src/mqttsn/mqtt_sn_timers.c:252-257 | Removes exactly the given key and repairs the invariant a renumbered object had broken |
| `SnRuns.InvHolds` | src/mqttsn/mqtt_sn_client.c:363-575 | The registration invariant holds in every state of every run with a gateway that grants distinct non-zero ids and may refuse registrations, subscriptions and publishes |
| `SnRuns.EachMessageInOnePlace` | src/mqttsn/mqtt_sn_client.c:164-228 | Conservation: each message given to the client is in exactly one place, once: awaiting REGACK, awaiting its acknowledgement, recorded, or given up on a refusal |
| `SnRuns.NothingIsInvented` | src/mqttsn/mqtt_sn_client.c:422-490 | Whatever is stored, recorded or given up is a submission with its content unchanged, and each stored publish lies under the id it carries |
| `SnRuns.RecordedByAnAnswer` | src/mqttsn/mqtt_sn_client.c:461-490 | A message recorded with QoS 1 or 2 was recorded by a PUBACK or PUBCOMP that carried its id |
| `SnRuns.RecordedWasAccepted` | src/mqttsn/mqtt_sn_client.c:461-490 | The gateway has accepted a recorded message if the packet that recorded it was an accepting one, and refused it if that was a refusing PUBACK; unless the gateway has done both, accepted if and only if that packet accepts.  It was sent under the id granted for its name |
| `SnRuns.RefusedIsRecorded` | src/mqttsn/mqtt_sn_client.c:461-476 | There is a run in which a QoS 1 message is recorded that the gateway has only refused |
| `SnRuns.RegisterPairsWithMessage` | src/mqttsn/mqtt_sn_client.c:195-208 | Section 6.5 of MQTT-SN 1.2: while REGISTER r is unanswered the table holds at r-1 the unpublished message for exactly that topic name, and nothing afterwards |
| `SnRuns.RegackPublishes` | src/mqttsn/mqtt_sn_client.c:422-448 | An accepting REGACK fires exactly the message that waited, with the next message id and the topic id granted for its name |
| `SnRuns.PublishCarriesGrantedId` | src/mqttsn/mqtt_sn_client.c:210-228 | Every publish ever put on the wire has a submission's content and the topic id granted for its name |
| `SnRuns.MapsAreInverse` | src/mqttsn/mqtt_sn_timers.c:195-209 | The name-to-id and id-to-name maps are inverse to each other in every reachable state and agree with the gateway |
| `SnRuns.FaultsExactly` | src/mqttsn/mqtt_sn_client.c:449-560 | In a reachable state a handler follows a NULL or unset pointer exactly when a PUBCOMP or UNSUBACK finds nothing, an UNSUBACK or accepted SUBACK answers a request by topic id whose id is no longer known, or a PUBLISH has no data or an unknown topic id |
| `SnRuns.PublishFaults` | src/mqttsn/mqtt_sn_client.c:449-453 | Any PUBLISH may arrive when its topic id is unknown, and is a fault then |
| `SnRuns.UnsubackFaults` | src/mqttsn/mqtt_sn_client.c:539-547 | A run in which an UNSUBACK that is delivered twice leaves defined behaviour |
| `SnRuns.PubcompFaults` | src/mqttsn/mqtt_sn_client.c:477-490 | The same for a PUBCOMP |
| `SnRuns.SubackFaults` | src/mqttsn/mqtt_sn_client.c:503-538 | A run in which a SUBACK is handled after a second CONNACK has made the client forget the topic id subscribed to |
| `SnHistory.AnswersExactly` | src/mqttsn/mqtt_sn_client.c:414-501 | In every run a PUBLISH with data and a known topic id is passed up and answered with exactly PUBACK at QoS 1, PUBREC at QoS 2, nothing else; any other is neither; a REGISTER is answered with an accepting REGACK, a PUBREC with PUBREL, a PUBREL with PUBCOMP, an accepting REGACK that finds a message with the publish of it, every other packet with nothing |
| `SnHistory.DeliveredInOrder` | src/mqttsn/mqtt_sn_client.c:449-459 | Over every run, what has been passed up are the publishes that were understood when they arrived, in the order of arrival, each as often as it was handed over |
| `SnHistory.RequestsAreSent` | src/mqttsn/mqtt_sn_client.c:136-252 | Each request of the user puts exactly one packet on the wire: a publish under the known topic id, or a REGISTER for the name; a SUBSCRIBE or UNSUBSCRIBE by topic id exactly when that is known; a QoS 0 publish is the only thing recorded then |
| `SnHistory.RecordsExactly` | src/mqttsn/mqtt_sn_client.c:422-490 | A message is recorded when a PUBACK or PUBCOMP finds it, or with QoS 0 when it is published, and given up when a refusing REGACK finds it, and at no other step of any run |
| `SnHistory.OpenUntilAcknowledged` | src/mqttsn/mqtt_sn_client.c:461-560 | Over every run: a publish above QoS 0, SUBSCRIBE or UNSUBSCRIBE that has been sent is stored under its id if and only if no acknowledgement with that id has been handled |
| `SnHistory.TopicsOverRun` | src/mqttsn/mqtt_sn_client.c:386-538 | Over every run: a name is known by id t if and only if a REGISTER, an accepting REGACK for it or an accepting SUBACK with a new id has taught it since the last accepting CONNACK, before the first of which there are no maps |
| `SnHistory.ZeroWaits` | src/mqttsn/mqtt_sn_client.c:386-402 | Key 0 holds CONNECT or a REGISTER until the next CONNACK, of whatever return code |
| `MqttWire.FiredPublishDecodes` | src/mqtt/mqtt_client.c:63-75 | In every state of every run, the octets of a QoS 1 or 2 publish that was fired or resent decode, whatever follows them, to exactly what the user submitted under its id |
| `MqttWire.WireDetermines` | src/mqtt/mqtt_client.c:63-75 | Two such publishes with the same octets are the same |
| `SnWire.FiredPublishDecodes` | src/mqttsn/mqtt_sn_client.c:74-84 | In every state of every run, the octets of a publish decode at the gateway to a submission's content under the topic id granted for its name |
| `SnWire.FiredRegisterDecodes` | src/mqttsn/mqtt_sn_client.c:195-208 | The octets of a REGISTER decode to a request for exactly the topic name of the message submitted under the id before it |
| `HashMap.MaskIsModulus` | src/map/map.c:57-61 | Masking with one less than a power of two is the remainder |
| `HashMap.Map.GetRef` | src/map/map.c:108-121 | The pointer-to-pointer search finds the link that leads to the key, or nothing exactly when the map has no such key |
| `HashMap.Map.Get` | src/map/map.c:140-143 | Looks up the finite map |
| `HashMap.Map.Set` | src/map/map.c:146-169 | The finite map is updated at the key; on a failed allocation it is unchanged; the bucket count stays or doubles; hash placement, distinct keys and nnodes <= nbuckets are kept |
| `HashMap.Map.Remove` | src/map/map.c:172-181 | Unlinks in place; the finite map loses exactly that key |
| `HashMap.Map.Resize` | src/map/map.c:71-105 | The contents are the same after a successful realloc and after a failed one, and every node is in the bucket of its hash |
| `HashMap.Map.ChainAll` | src/map/map.c:74-87 | All nodes are chained, each once |
| `HashMap.Map.Deinit` | src/map/map.c:124-137 | Frees every node of the map exactly once |
| `HashMap.Map.Next` | src/map/map.c:192-206 | Returns the node after the last one in bucket order, or nothing at the end |
| `HashMap.Map.Keys` | src/map/map.c:184-206 | Iterating from map_iter_ returns every key exactly once and ends |
| `HashMap.RespreadCovers` | src/map/map.c:94-101 | However the gathered nodes are spread again by hash, every key of the map is found |
| `HashMap.FlatKeys` | src/map/map.c:192-206 | The nodes in bucket order carry exactly the keys of the map, without repetition |
| `HashMap.HashGrows` | src/map/map.c:34-40 | The hash of no characters is 5381; one more character makes it 33 times as much, in 32 bits, with the character's bits flipped |
| `AmqpTlv.RoundTrip` | src/amqp/tlv_factory.c:36-43 | Sections 1.2 and 1.6 of AMQP 1.0 part 1: at any offset and with any suffix, the encoding of any nested value decodes to its record and the cursor moves by exactly its length |
| `AmqpTlv.CtorRoundTrip` | src/amqp/tlv_factory.c:261-279 | The same for a constructor with a described type |
| `AmqpTlv.BodyRoundTrip` | src/amqp/tlv_factory.c:45-253 | The same for what follows a constructor, for every type code; the widths themselves are those of AmqpOctets |
| `AmqpTlv.ArrayRoundTrip` | src/amqp/tlv_factory.c:215-247 | The same for arrays, whose elements share one constructor |
| `AmqpTlv.MapRoundTrip` | src/amqp/tlv_factory.c:174-214 | The same for maps, which end where their size says |
| `AmqpTlv.ViewDetermines` | src/amqp/tlv_factory.c:45-253 | Without LIST_32 children and described array constructors, the record determines the value among all well-formed ones |
| `AmqpTlv.UniquelyDecodable` | src/amqp/tlv_factory.c:36-279 | No encoding of a well-formed value is a prefix of, or continues, the encoding of another |
| `AmqpTlv.List32Loses` | src/amqp/tlv_factory.c:160-173 | A LIST_32 record keeps only number and size of its children |
| `AmqpTlv.ArrayLosesDescriptor` | src/amqp/tlv_factory.c:215-247 | The descriptor of an array's shared constructor is not in the record |
| `AmqpTlv.GetTlv` | src/amqp/tlv_factory.c:36-43 | The recursive decoder with its shared cursor computes the specification on every buffer, ends, and reads outside the buffer exactly when the specification says so, which AmqpOctets tells code by code |
| `AmqpTlv.GetElement` | src/amqp/tlv_factory.c:45-253 | The same for the switch over type codes, with the widths of AmqpOctets |
| `AmqpOctets.FixedWidths` | src/amqp/tlv_factory.c:65-112 | Section 1.2.1 of AMQP 1.0 part 1: behind each code of a fixed width, 0x50 to 0x98, stand 1, 2, 4, 8 or 16 octets as the high half of the code says; they are the value, and the cursor stops behind them; with fewer left the buffer is overrun |
| `AmqpOctets.Constants` | src/amqp/tlv_factory.c:56-64 | 0x41 to 0x44 have no octets and read as a zero of length 0 |
| `AmqpOctets.ShortVariable` | src/amqp/tlv_factory.c:113-124 | Binary, string and symbol of short form: one octet of length, then the value |
| `AmqpOctets.LongVariable` | src/amqp/tlv_factory.c:125-137 | The same with four octets of length in network order; one of 2^31 or more overruns |
| `AmqpOctets.NothingFollows` | src/amqp/tlv_factory.c:52-55 | null and every code that is not known stand alone; 0x45 is a list of none |
| `AmqpOctets.ShortList` | src/amqp/tlv_factory.c:146-159 | 0xC0: one octet of size, one of count, and exactly as many values one after another as the count says, or the buffer is overrun |
| `AmqpOctets.LongList` | src/amqp/tlv_factory.c:160-173 | 0xD0: the same with four octets each; the values are passed over but not kept |
| `AmqpOctets.ShortMap` | src/amqp/tlv_factory.c:174-193 | 0xC1: keys and values in turn up to the first entry that ends where the size says or later, no more of them than the count |
| `AmqpOctets.LongMap` | src/amqp/tlv_factory.c:194-214 | 0xD1: the same with four octets each |
| `AmqpOctets.Arrays` | src/amqp/tlv_factory.c:215-247 | 0xE0 and 0xF0: size, count, one constructor, and as many elements without codes of their own, each read as the value would be behind its code |
| `AmqpOctets.Descriptors` | src/amqp/tlv_factory.c:261-279 | A zero octet opens a descriptor and then the value described, read as by itself |
| `AmqpList.WrapUint` | src/amqp/wrappers/wrapper.c:209-248 | Lays out zero, one or four octets after the type code, in network order: the standard's encoding of the number |
| `AmqpList.InitTlvVariable` | src/amqp/wrappers/wrapper.c:45-72 | Type code, length and data; a length of four octets is in the machine's order |
| `AmqpList.BinaryIsEncodedExactly` | src/amqp/wrappers/wrapper.c:149-157 | A binary field is encoded as the standard says exactly when one octet holds its length, or its four length octets read the same both ways |
| `AmqpList.WrapState` | src/amqp/wrappers/wrapper.c:696-707 | A delivery state is the standard's empty list described by the state code |
| `AmqpList.SizeIsLength` | src/amqp/amqp_parser.c:809-811 | For every pattern of present and absent fields, the accumulated size plus the nulls counted is the length of the elements that are sent |
| `AmqpList.Count` | src/amqp/amqp_parser.c:679-807 | The count of a list ends with its last present field: no trailing nulls |
| `AmqpList.TlvList.Add` | src/amqp/amqp_parser.c:697-706 | One more field, present or null, keeps count, number present and size in step with the fields given so far |
| `AmqpList.TlvList.CalculateBytes` | src/amqp/amqp_calc.c:94-121 | The bytes of the whole list: its descriptor, LIST_8 or LIST_32 by size, size, count and exactly the elements up to the last present one, nulls in the gaps |
| `AmqpList.TlvList.GetBytes` | src/amqp/amqp_calc.c:47-92 | Size and count reversed into network order, then the first count elements |
| `AmqpArguments.AddTransfer` | src/amqp/amqp_parser.c:673-814 | The list holds the eleven fields of a TRANSFER in order; without a handle there is none, and with a negative number or `aborted` its octets are not defined |
| `AmqpArguments.AddDisposition` | src/amqp/amqp_parser.c:815-905 | The same for the six fields of a DISPOSITION, whose role and first number are mandatory |
| `AmqpArguments.AddDetach` | src/amqp/amqp_parser.c:906-959 | The same for the three fields of a DETACH without error |
| `AmqpEncoder.AddSection` | src/amqp/amqp_parser.c:204-258 | A DATA section is the standard's described binary, for any length |
| `AmqpEncoder.AmqpEncode` | src/amqp/amqp_parser.c:164-202 | The buffer, grown section by section, holds the whole frame with its size filled in last; AmqpFields says which octets those are |
| `AmqpFields.TransferOctets` | src/amqp/amqp_parser.c:673-814 | By position: which octets each of the eleven fields of a TRANSFER is sent as: 0x43, 0x52 and an octet or 0x70 and four for a number, 0x41 if and only if a boolean is true, 0x50 for the settle mode, 0xA0 or 0xB0 for the tag, 00 53 code 45 for the state |
| `AmqpFields.DispositionOctets` | src/amqp/amqp_parser.c:815-905 | The same for the six fields of a DISPOSITION |
| `AmqpFields.DetachOctets` | src/amqp/amqp_parser.c:906-959 | The same for the three fields of a DETACH |
| `AmqpFields.ArgumentOctets` | src/amqp/amqp_calc.c:47-121 | The arguments are 00 53, then 0x14, 0x15 or 0x16, then 0xC0 or 0xD0 with the fields up to the last one given and 0x40 for each not given, counted in one octet or four |
| `AmqpFields.SectionOctets` | src/amqp/amqp_parser.c:204-258 | A section is 00 53 75, then 0xA0 or 0xB0 with its length in network order, then the data |
| `AmqpFields.FrameOctets` | src/amqp/amqp_parser.c:164-202 | Where length, offset, type, channel and the code of the performative stand in the frame, octet by octet |
| `AmqpStandard.ListIsNoValue` | src/amqp/amqp_calc.c:94-121 | Section 1.6.22 of AMQP 1.0 part 1: elements in standard form packed by this code, as LIST_8 or LIST_32, with whatever after them, never start with the encoding of any well-formed value, because the size field is one short |
| `AmqpStandard.ArgumentsAreNoValue` | src/amqp/amqp_parser.c:673-959 | So the arguments of no TRANSFER, DISPOSITION or DETACH are a value of the standard, as long as the length of a delivery tag is written right |
| `AmqpLongTag.LongTagStartsValue` | src/amqp/wrappers/wrapper.c:45-72 | That condition is needed: with a tag of 65536 octets, whose length reads as 256, the two mistakes meet and the arguments do start with a well-formed list |
| `AmqpFrame.FrameParts` | src/amqp/amqp_parser.c:164-199 | The size field of an encoded frame is its byte count, and the header fields and the body stand where the decoder reads them, for every channel a short holds |
| `AmqpPacked.PackedIsEncoded` | src/amqp/amqp_parser.c:673-959 | As far as the wrappers give each element its standard encoding, the packed list is the concatenation of these |
| `AmqpPacked.EntryIsView` | src/amqp/amqp_parser.c:815-905 | The k-th element read back is the record of the k-th field, for absent fields too |
| `AmqpFrame.UintComesBack` | src/amqp/wrappers/unwrapper.c:207-222 | An unsigned number comes back exactly when it is at most 255, because a four-octet one is recorded with length 1 |
| `AmqpPacked.List32Decodes` | src/amqp/tlv_factory.c:160-173 | A performative that needs a LIST_32 is decoded without any list |
| `AmqpFrame.SectionsDecode` | src/amqp/amqp_parser.c:113-126 | No section or one comes back whole; a second is written past the one place allocated |
| `AmqpDecoder.AmqpDecode` | src/amqp/amqp_parser.c:55-128 | Follows the decoder on every buffer, with each read outside, NULL pointer and refusal as an outcome of its own; AmqpFields says what each octet means |
| `AmqpDecoder.ReadTransfer` | src/amqp/header_factory.c:710-804 | Fills the eleven fields from the list, one after the other, a null or missing element leaving its field unset |
| `AmqpDecoder.ReadDisposition` | src/amqp/header_factory.c:805-868 | The same for DISPOSITION, with its early returns |
| `AmqpDecoder.ReadDetach` | src/amqp/header_factory.c:869-938 | The same for DETACH |
| `AmqpDecoder.GetSections` | src/amqp/amqp_parser.c:119-126 | The section loop: everything but one DATA section goes wrong |
| `AmqpFields.BoolMeans` | src/amqp/wrappers/unwrapper.c:84-120 | Whatever stands in the buffer, a boolean is read from 0x41 as true, from 0x42 as false, from 0x56 and an octet of 0 or 1, and from nothing else |
| `AmqpFields.UintMeans` | src/amqp/wrappers/unwrapper.c:207-222 | A number is read from 0x43, from 0x52 and an octet, and from 0x70, whose first octet is taken for the whole |
| `AmqpFields.DescriptorMeans` | src/amqp/tlv_factory.c:261-279 | The code of a described element is the octet behind 0x53, and of the eight behind 0x80 the first, which is 0 for every code of the standard |
| `AmqpFields.PingOctets` | src/amqp/amqp_parser.c:55-75 | Exactly 00 00 00 08 02 00 00 00, or with type 1, is a ping |
| `AmqpFields.HeaderOctets` | src/amqp/amqp_parser.c:55-75 | Exactly "AMQP", 0 or 3, and version 1.0.0 is a protocol header |
| `AmqpFields.FrameKind` | src/amqp/amqp_parser.c:55-128 | Any other buffer is a frame if its first four octets are its length and its type is 0 or 1 |
| `AmqpFields.CodesMean` | src/amqp/amqp_parser.c:90-128 | A TRANSFER, DISPOSITION or DETACH is received only behind the code 0x14, 0x15 or 0x16; any other code is another performative |
| `AmqpFields.SectionsMean` | src/amqp/amqp_parser.c:119-126 | Behind a TRANSFER the decoder takes nothing or one described binary with code 0x75 that ends the frame |
| `AmqpFields.DispositionRefused` | src/amqp/header_factory.c:805-868 | When a DISPOSITION is refused and when a NULL pointer is followed, by the codes of its elements |
| `AmqpFields.DetachRefused` | src/amqp/header_factory.c:869-938 | The same for DETACH |
| `AmqpFrame.FrameRoundTrip` | src/amqp/amqp_parser.c:55-202 | TRANSFER, DISPOSITION and DETACH without error come back with every present field and no other, if and only if the list fits LIST_8, the numbers are at most 255 and there is at most one section |
| `AmqpFrame.TransferComesBack` | src/amqp/header_factory.c:710-804 | A decoded TRANSFER has all its fields, and equals what was sent exactly when its numbers are small |
| `AmqpFrame.DispositionComesBack` | src/amqp/header_factory.c:805-868 | The same for DISPOSITION |
| `AmqpFrame.DetachComesBack` | src/amqp/header_factory.c:869-938 | The same for DETACH |
| `Framing.AmqpDataReceived` | src/amqp/amqp_client.c:485-523 | The splitting loop on every buffer, with the ways it can fail as outcomes; for a length of zero it hands on an empty piece, for ever |
| `Framing.FramesAreDelivered` | src/amqp/amqp_client.c:513-522 | Whole frames received together are handed on one by one, each once, in order, and the loop ends |
| `Framing.EncodedFramesAreDelivered` | src/amqp/amqp_client.c:513-522 | This is so for any encoded frames sent back to back |
| `Framing.NothingIsSkipped` | src/amqp/amqp_client.c:485-523 | For every input, behind a protocol header or not, the pieces handed on are consecutive from the start, and cover what was received when the loop ends |
| `Pieces.AmqpSplits` | src/amqp/amqp_client.c:485-523 | On every buffer without a protocol header: each piece is as long as the four octets at its start say; the loop ends behind what was received, or where the length is missing, negative or too large, or goes on for ever where it is zero |
| `AmqpFields.HeaderIsSplit` | src/amqp/amqp_client.c:485-512 | A protocol header of version 1.0.0 is cut off the frame behind it; anything else that opens with "AMQP" is handed on whole |
| `Framing.MqttDataReceived` | src/mqtt/mqtt_client.c:263-279 | The MQTT splitting loop on every buffer |
| `Pieces.MqttSplits` | src/mqtt/mqtt_client.c:263-279 | On every buffer: the first piece is as long as its remaining length says, every further one as the one octet behind its header says, to the same ends |
| `Framing.PacketsAreDelivered` | src/mqtt/mqtt_client.c:263-279 | Whole MQTT packets received together are handed on one by one if and only if every one after the first has a remaining length of one octet |
| `Framing.LayoutIsWhole` | src/mqtt/mqtt_client.c:263-279 | For a packet encoded here that means a remaining length of at most 127 |
| `Reads.CutsDeliver` | src/amqp/amqp_client.c:485-523 | However a stream of whole frames is cut into reads, for AMQP and for MQTT, they are handed on one by one, in order, if and only if every read holds whole frames only and, for MQTT, each but the first of a read has a remaining length of one octet |
| `MqttReceive.PacketArrives` | src/mqtt/mqtt_client.c:281-291 | An acknowledgement or publish arrives as it was sent, whatever memory stands behind its octets |
| `MqttReceive.ReadIsReceived` | src/mqtt/mqtt_client.c:263-279 | Packets received in one read are handled as if they had come one by one, when each but the first has a remaining length of one octet |
| `MqttReceive.ReadIsSteps` | src/mqtt/mqtt_client.c:263-279 | Then a read of packets from the channel leads from a reachable state to a reachable state, so all that holds in every run holds after it |
| `MqttCut.CutRecordsUnaccepted` | src/mqtt/mqtt_client.c:272-276 | Otherwise not: there is a reachable state, and two publishes on the channel, such that receiving both in one read records a publish that the broker has not accepted, out of a PUBACK that stands in the content of the second, whatever the copies of the pieces hold |
| `DyadSpec.ChunkingDoesNotMatter` | src/net/dyad.c:551-585 | For any sequence of reads, the LINE events are the lines of the whole input and the buffer is its unterminated tail |
| `DyadSpec.LinesOfText` | src/net/dyad.c:559-572 | The lines of a text are exactly its newline-terminated lines with one trailing carriage return stripped |
| `DyadSpec.EveryInputIsText` | src/net/dyad.c:551-585 | Every input is such a text: newline-terminated lines and an unterminated rest |
| `DyadSpec.NextRead` | src/net/dyad.c:551-585 | What was left over and the next read yield what the whole yields |
| `Dyad.Stream.HandleReceivedData` | src/net/dyad.c:544-585 | On a connected stream, pushing a read, emitting lines in place and splicing the vector does one step of that reading; on any other the read leaves the lines alone |
| `Dyad.Stream.EmitLines` | src/net/dyad.c:557-579 | The in-place loop emits the lines of the buffer and leaves the tail untouched behind the last of them |
| `Dyad.Vec.Push` | src/net/dyad.c:104-113 | Appends, after doubling the capacity when full; the contents are kept |
| `Dyad.Vec.Splice` | src/net/dyad.c:115-122 | Takes out exactly the given stretch |
| `Dyad.Stream.Write` | src/net/dyad.c:1040-1046 | Appends to the write buffer and sets the flag |
| `Dyad.Stream.FlushWriteBuffer` | src/net/dyad.c:623-665 | One flush with any answer of send: what was taken leaves the front of the buffer, is counted, and the stream closes or becomes ready as the specification says |
| `Dyad.Stream.Close` | src/net/dyad.c:922-938 | Closes once and clears both buffers |
| `Dyad.Stream.End` | src/net/dyad.c:941-948 | Closes at once when nothing is buffered, otherwise marks the stream as closing, which DyadRuns.StateOverRun follows to its close |
| `DyadSpec.BytesAreConserved` | src/net/dyad.c:623-665 | Under every interleaving of writes, partial sends, ends and closes, the bytes the socket took followed by those buffered are the bytes written, in order, and bytesSent counts them |
| `DyadSpec.FlushClosesWhenDone` | src/net/dyad.c:623-665 | A flush closes the stream if and only if a send failed, or the stream was closing and all that was written has been taken |
| `DyadSpec.GracefulRunLosesNothing` | src/net/dyad.c:941-948 | Without an immediate close and a failed send, a run discards nothing, however the sends are split |
| `DyadRuns.StateOverRun` | src/net/dyad.c:623-665 | Over every run: the stream is closed from the first call on that closes it, which is a close, a failed send, an end with everything taken, or a flush after an end that takes the rest; closing from an end until then; and else as it began |
| `DyadRuns.TrafficOverRun` | src/net/dyad.c:1040-1046 | What was written is what was given to dyad_write, and as much has been taken as send said |
| `DyadRuns.FlagsOverRun` | src/net/dyad.c:623-665 | WRITTEN is set from a write to the next flush, READY from the first flush that leaves an open stream with nothing buffered |
| `Coap.Encode` | src/coap/coap_parser.c:26-117 | Writes the header, the token up to its first 0, every option against the previous number, the marker and the payload up to its first 0, each string cut to its length modulo 65536, if and only if that fits the buffer; otherwise it writes past its end |
| `Coap.ReadOptions` | src/coap/coap_parser.c:171-229 | The option loop on every buffer |
| `Coap.DecodeMessage` | src/coap/coap_parser.c:119-241 | The decoder on every buffer, with refusals and reads outside as outcomes |
| `Coap.OptionsDecode` | src/coap/coap_parser.c:171-228 | Any number of options that fit come back |
| `Coap.OptionsConsume` | src/coap/coap_parser.c:171-228 | What the option loop passes over is determined by the options it returns |
| `Coap.SizesCompare` | src/coap/coap_parser.c:52-105 | The decoder never passes over more octets than were written, and as many only when every option fits |
| `Coap.CodeComesBack` | src/coap/coap_parser.c:40-45 | A code 100c+d comes back exactly when c is less than 8 and d less than 32 |
| `Coap.CoapRoundTrip` | src/coap/coap_parser.c:26-241 | Sections 3 and 3.1 of RFC 7252: of the messages encoded inside their buffer, whatever their fields, exactly those come back that are version 1, CON or ACK, with such a code, a token of 1 to 8 octets and a payload of 1 to 65535, neither with a 0 in it, and options with deltas in 0..254 or 269..65804 and at most 254 octets; outside the buffer the same holds as long as payload and values are laid out whole |
| `Coap.LongPayloadIsLost` | src/coap/coap_parser.c:109-114 | A payload of 65536 octets is not laid out at all, which overruns no buffer, with PUT or with GET, and the decoder then reads behind the message |
| `Coap.ZeroTokenIsLost` | src/coap/coap_parser.c:34-49 | A token that starts with a 0 is laid out empty and does not come back |
| `CoapStandard.ReadsAsMeant` | src/coap/coap_parser.c:26-117 | Section 3 of RFC 7252, read by a receiver written down from the standard: a message that is encoded says there what it was meant to say if it is version 1 of type 0 to 3 with such a code other than 0.00, a token of at most 8 octets, a payload of 1 to 65535, neither with a 0 in it, and deltas and lengths in 0..254 or 269..65804; with option values below 65536 octets, only then |
| `CoapStandard.MessageMeans` | src/coap/coap_parser.c:119-241 | Every message of the standard, whoever encoded it, whose option values have fewer than 269 octets is decoded to what it says, but for the low bit of its type and a payload that starts with 0 |
| `SnCodec.DecodeFlag` | src/mqttsn/sn_parser.c:436-495 | The loop over the flag values picks out the fields of the octet |
| `SnCodec.FlagsRoundTrip` | src/mqttsn/sn_parser.c:499-521 | Every combination of flags comes back from its octet |
| `SnCodec.LengthAgrees` | src/mqttsn/sn_parser.c:90-282 | Section 5.2.1 of MQTT-SN 1.2: for strings of every length, the octets laid out are as many as are allocated and sent if and only if the string is shorter than 65536 octets and, in CONNECT and PINGREQ, leaves the header at one octet; the only overrun is by two octets, for a longer identifier below 65536 octets |
| `SnCodec.LengthIsDeclared` | src/mqttsn/sn_parser.c:524-536 | The length field read back is the length that is sent if and only if that is below 65536 |
| `SnCodec.Encode` | src/mqttsn/sn_parser.c:524-783 | The buffer, of the length that is sent, starts with the layout of the packet, and holds nothing else when its string is shorter than 65536 octets; it is written past its end if and only if such an identifier of CONNECT or PINGREQ does not fit |
| `SnCodec.DecodeMessage` | src/mqttsn/sn_parser.c:785-960 | The decoder on every buffer, field by field for the packets modelled, with reads outside and unset pointers as outcomes |
| `SnCodec.RegisterRoundTrip` | src/mqttsn/sn_parser.c:613-623 | REGISTER decodes to itself, whatever follows it, if and only if its length is below 65536 |
| `SnCodec.WillMsgRoundTrip` | src/mqttsn/sn_parser.c:604-612 | The same for WILL_MSG |
| `SnCodec.PublishRoundTrip` | src/mqttsn/sn_parser.c:905-940 | PUBLISH by topic id decodes to itself if and only if it has data and its length is below 65536; an unset pointer is followed exactly when it has no data or its length, cut to 16 bits, declares none |
| `SnCodec.TopicAckRoundTrip` | src/mqttsn/sn_parser.c:624-659 | REGACK and PUBACK decode to themselves |
| `SnCodec.AckRoundTrip` | src/mqttsn/sn_parser.c:660-674 | PUBREC, PUBREL and PUBCOMP decode to themselves |
| `SnStandard.ReadsAsMeant` | src/mqttsn/sn_parser.c:524-783 | Section 5 of MQTT-SN 1.2, read by a gateway written down from the standard: a packet that is encoded says there what it was meant to say if and only if its length is below 65536, an identifier leaves the length in one octet, and it is no PINGREQ with an empty identifier nor a WILLTOPIC with flags and no topic |
| `SnStandard.FlagsMean` | src/mqttsn/sn_parser.c:436-495 | All 256 octets of flags are read as section 5.3.4 says, types 2 and 3 alike |
| `SnStandard.PublishMeans` | src/mqttsn/sn_parser.c:905-940 | A PUBLISH of at most 255 octets with data, whoever encoded it, is decoded to what it says |
| `SnStandard.AckMeans` | src/mqttsn/sn_parser.c:895-1042 | So are REGACK, PUBACK, PUBCOMP, PUBREC, PUBREL and UNSUBACK, each told by its own type octet |
| `MqttCodec.AddPacketLength` | src/helpers.c:140-155 | Writes the remaining length from the second octet on and returns where the next octet goes |
| `MqttCodec.DecodeRemainingLength` | src/mqtt/parser.c:714-739 | The decoding loop on every buffer |
| `MqttCodec.LengthRoundTrip` | src/mqtt/parser.c:714-739 | Section 2.2.3 of MQTT 3.1.1: every length up to 268435455 takes at most four octets and comes back |
| `MqttCodec.DigitsLength` | src/helpers.c:140-155 | It takes one octet up to 127, two up to 16383, three up to 2097151, four beyond |
| `MqttCodec.RemainingLengthIsShort` | src/helpers.c:123-138 | The unused helper is right exactly up to its mistyped limit 26843545 |
| `MqttCodec.LengthAgrees` | src/mqtt/parser.c:45-104 | For each packet the client sends, the declared length is never less than what is written and equals it if and only if every string fits its count and the required ones are not empty |
| `MqttCodec.RoomIsEnough` | src/mqtt/parser.c:106-110 | The buffer allocated always suffices |
| `MqttCodec.Encode` | src/mqtt/parser.c:106-301 | The buffer starts with the fixed header, the remaining length and the body |
| `MqttCodec.DecodeMessage` | src/mqtt/parser.c:303-712 | The decoder on every buffer, for PUBLISH and acknowledgements |
| `MqttCodec.PublishComesBack` | src/mqtt/parser.c:495-551 | A faithful PUBLISH decodes to itself whatever follows it |
| `MqttCodec.PublishRoundTrip` | src/mqtt/parser.c:190-216 | A PUBLISH comes back if and only if its topic fits, it has content, its id is non-zero exactly above QoS 0, and it is no repetition at QoS 0 |
| `MqttCodec.AckRoundTrip` | src/mqtt/parser.c:217-244 | PUBACK, PUBREC, PUBREL and PUBCOMP come back with kind and id |
| `MqttStandard.ReadsAsMeant` | src/mqtt/parser.c:106-301 | Sections 2 and 3 of MQTT 3.1.1, read by a server written down from the standard: a packet that is encoded says there what it was meant to say if and only if its strings fit and, for CONNECT, user name and password are given both or neither, for PUBLISH, there is an id exactly above QoS 0 and no repetition at QoS 0, for SUBSCRIBE and UNSUBSCRIBE, the id is not 0; no PINGREQ or DISCONNECT does |
| `MqttStandard.PublishMeans` | src/mqtt/parser.c:495-551 | Every PUBLISH of the standard, whoever encoded it and whatever follows it, is decoded to what it says |
| `MqttStandard.AckMeans` | src/mqtt/parser.c:552-689 | So is every PUBACK, PUBREC, PUBREL, PUBCOMP and UNSUBACK |
| `MqttStandard.LengthFails` | src/mqtt/parser.c:714-739 | A remaining length of more than four octets is refused, and one that the buffer cuts short is read past its end |
| `Base64.Base64Encode` | src/ws/base64_parser.c:37-64 | The loops over triples and padding compute the encoding |
| `Base64.Base64Decode` | src/ws/base64_parser.c:67-100 | The loop over quadruples computes the decoding, with NULL for a length that is no multiple of four; of the empty string, and of no other, octets before the buffer are read |
| `Base64.BuildDecodingTable` | src/ws/base64_parser.c:103-109 | The table maps every letter back to its number |
| `Base64.Base64RoundTrip` | src/ws/base64_parser.c:37-100 | Section 4 of RFC 4648: decoding the encoding of any non-empty byte string is the identity |
| `Base64.LengthComesBack` | src/ws/base64_parser.c:41-77 | The encoded length is 4*ceil(n/3) and the decoded length exactly n |
| `Base64.PaddingIsLast` | src/ws/base64_parser.c:60-61 | Padding signs stand at the end only, none, one or two of them by the length modulo three |
| `Base64.ValueComesBack` | src/ws/base64_parser.c:84-87 | Each letter, padding included, decodes to the six bits it stands for |
| `Base64.LettersAre` | src/ws/base64_parser.c:25-32 | Table 1 of RFC 4648: the letter for each number below 64 |
| `Base64.GroupSpells` | src/ws/base64_parser.c:37-64 | Each four letters are the digits to the base 64 of the number their three octets make up, with padding for digits no octet reaches |
| `Utf8.Utf8Check` | src/helpers.c:43-76 | The loop finds the first bad character of any C string and never reads past the terminator |
| `Utf8.CheckIsExact` | src/helpers.c:43-76 | Nothing is found if and only if the string is a sequence of characters of section 4 of RFC 3629 other than U+FFFE and U+FFFF; otherwise the start of the first bad one: such characters before it, none at it |
| `Utf8.ThreeIs` | src/helpers.c:54-62 | The mask tests for three octets agree with the productions |
| `Utf8.FourIs` | src/helpers.c:63-71 | The mask tests for four octets agree with the productions |
| `Octets.IntRoundTrip` | src/helpers.c:101-104 | The signed big-endian reader inverts add_int on non-negative numbers |
| `Octets.ShortRoundTrip` | src/helpers.c:78-94 | The two-octet reader, taken as unsigned, inverts add_short |
| `Buffers.Reverse` | src/helpers.c:157-168 | Reverses the array in place |

## Left out

- Screens, database and accounts (src/gui, src/dal); `save_message` is a log.  What a handler calls there is out of scope, with the fixed buffers of the screens (src/gui/main_w.c:244): a fault is a pointer that the handler itself follows or hands on NULL or unset.
- Sockets, TLS, DTLS, WebSocket framing and threads; a timer is an action that may happen at any time.
- src/ws/ws_parser.c, which wraps a JSON library.
- A second CONNECT on the same client, which makes a new table while old packets are still on the channel.
- The CONNECT retry of the timers (src/mqtt/mqtt_timers.c:53-64), which resends the entry under key 0.
- An MQTT-SN resend pass: its timer is never started (src/mqttsn/mqtt_sn_client.c:396).
- SnSession.SnClient.SendSnMessage: does not model the text of the packet beyond its fields; SnCodec does.
- HashMap.Map.Set: does not model a bucket count doubled past the range of an unsigned, nor the packing of key and value behind the node.
- CONNECT, SUBSCRIBE, UNSUBSCRIBE and SUBACK decoding in src/mqtt/parser.c, and the WILL_TOPIC, SUBSCRIBE, UNSUBSCRIBE and gateway packets of src/mqttsn/sn_parser.c: cases of a server, with results that point into dead stack frames.
- MqttCodec.Encode: does not model SUBSCRIBE and UNSUBSCRIBE with several topics, as the client always sends one.
- SnCodec.Encode: does not model what is in the memory behind the buffer after a write past its end, nor what was in the buffer before.
- Coap.Encode: does not model a NULL payload or token, which src/coap/coap_parser.c:34 and 109 pass to `strlen`; nor the memory behind the buffer after a write past its end; nor option numbers that descend.
- AmqpArguments.AddTransfer: does not model a delivery tag of 2^30 octets and more; of a negative number it says only that the octets sent are not defined, as src/amqp/wrappers/wrapper.c:278 copies those of a pointer.
- AmqpArguments.AddDisposition: says the same of a negative number.
- AmqpArguments.AddDetach: does not model an error, and says the same of a negative number.
- AmqpFrame.FrameRoundTrip: does not model errors in DETACH, `aborted` in TRANSFER (its encoder follows a NULL pointer, src/amqp/amqp_parser.c:787-793), negative numbers, and the other performatives; the decoded delivery tag has no length of its own.
- unwrap_string, unwrap_symbol and unwrap_array, which the performatives modelled do not use.
- AMQP sources, targets, errors, symbols, strings, maps and arrays on the encoding side, and floating-point readers.
- AmqpTlv.GetTlv: does not model allocation; a negative number of elements reads as none.
- Framing.AmqpDataReceived: does not model the four octets read behind the last frame, whose value is not used.
- Dyad.Stream.HandleReceivedData: does not model handlers that close or change the stream while an event is delivered, a stream without a listener for lines, nor the other events.
- MqttReceive.ReadIsReceived: does not model reads with CONNACK, SUBACK, UNSUBACK or PINGRESP in them; the codec decodes none of these but UNSUBACK, which the client never encodes.
- AmqpStandard.ArgumentsAreNoValue: does not say which tags of a wrongly written length make a value; that depends on the octets of the tag.
- The topic and link tables of the CoAP and AMQP clients, which repeat the table argument in a weaker form.
- CoapStandard.ReadsAsMeant: does not say that a message with an option value of 65536 octets or more, of which only the rest is copied, is never read as it was meant: what follows the value would have to continue it.
- SnStandard.PublishMeans: does not model a length field of three octets, which SnCodec.PublishRoundTrip covers for what the client encodes.
- MqttStandard.ReadsAsMeant: its server takes SUBSCRIBE and UNSUBSCRIBE with one topic filter and does not check that strings are UTF-8.
- Certificate and host checks in src/helpers.c.
