# CSMA transmit path and hash-ring file index: a verified model

Two reactive systems are modelled, in twenty-three Dafny files.

**The CSMA transmit path.** Every device has a four-state transmitter (READY, BACKOFF, BUSY, GAP), a bounded
FIFO queue, one current packet, a retry counter with truncated binary exponential backoff, and timers posted to
a simulator. Any number of devices share one channel.

- `Backoffs` is the backoff class and the arithmetic of what one packet can wait at most.
- `Frames` is framing and unframing on bytes.
- `Transmitter` states each handler as a function on device values in which every assertion of the source is a
  check that can fail.
- `CsmaNetwork` lets any number of such devices run on one channel under any interleaving of sends, switches of
  the send side, timers and ends of propagation, and proves the global invariant that makes every assertion hold.
- `CsmaWire` says what the channel is given to carry over a run: of each device exactly its sent packets, in order.
- `CsmaProgress` bounds the number of events a run can fire; `CsmaLiveness` says when a device keeps working and
  what exactly goes wrong otherwise; `CsmaWitnesses` holds runs of two devices that show it.
- `CsmaDevices` and `CsmaSimulation` are the objects themselves: classes whose methods change their fields step
  by step, each proved to do what the function in `Transmitter` or `Frames` says, and an event loop.

**The hash-ring file index.** A bootstrap program collects registrations, hashes nodes and files, sorts the ring,
links neighbours, places every file at the hash successor of its name, and mails each peer its part as one flat
string. Peers then answer searches by passing the request on around the ring over UDP.

- `OatHash` is the 64-bit one-at-a-time hash, with the exact inverse of every stage.
- `Text` is what both programs do with strings: getline on a string stream, C strings in datagrams, decimal numbers.
- `HashRing` is key ownership, sorting, linking and placement on an array of nodes; `RingMessages` the two set-up
  messages, and `RingTruncation` what becomes of one that is too long; `Bootstraps` the bootstrap's main program
  put together.
- `RingSearch` is `search_func` and the dispatch loop on texts; `RingProtocol` proves the search correct over a
  network that loses, reorders and duplicates; `RingService` shows that the texts do what the protocol means; and
  `RingSystem` joins everything, from the registrations the peers send over the bootstrap's mails to the answers on
  their screens. `RingWitness` is a run in which an answer reaches the wrong screen.

Five things one would expect are false of the code as it stands. Each is shown by a concrete case, and it is proved
exactly when it happens:

- Switching the send side off while a device backs off drops the packet but leaves the state BACKOFF without a
  timer (`CsmaWitnesses.SwitchingOffWedges`). `CsmaLiveness.WedgedExactly` says when a step does this,
  `CsmaLiveness.WedgedForever` that it is for good.
- A dropped packet, be it that the channel refused it or that the send side was off, can leave a READY device with
  packets queued and no timer (`CsmaWitnesses.SwitchingOffStrands`). `CsmaLiveness.StrandedExactly` says when,
  `CsmaLiveness.StrandedUntilSend` that only a later send of its own can free the device, and
  `CsmaLiveness.StrandedFullForever` that nothing does if its queue is full (`CsmaWitnesses.RefusalClogsFullQueue`).
- A refused channel start keeps the retry counter, so the next packet starts with fewer retries
  (`CsmaWitnesses.RefusalShortensNextBudget`). `Transmitter.Leftover` is what a finished packet leaves on the counter;
  `CsmaNetwork.InheritsAt` and `CsmaNetwork.AbortBudget` are the exact rule.
- A topology message beyond 1001 characters is cut on receipt and read without complaint
  (`RingTruncation.OneTooLong`). `RingTruncation.RebuiltExactly` says which messages the peer still reads right: those
  of at most 1001 characters and, beyond that, only those cut right behind the last file name whose owner is the one
  read just before, as when two files of one owner end the message (`RingTruncation.SameOwnerSurvives`); an empty
  predecessor name behind a successor name of 1000 characters and no files aside. All others are read wrong.
- A search request of more than 1000 characters is cut on receipt too, so the peers hear less of the asker's name or
  even of the file name, and the answer goes to whoever is at the name they hear: in `RingWitness.WrongPeerShows` a
  peer that asked for nothing shows it, and the asker nothing. `RingService.Reaches` is the exact condition under
  which the asker gets its answer (`RingService.FoundExactly`, `RingService.ShownToAskerExactly`): it holds the file
  itself, or the file name arrives whole and what arrives of its own name still has its address, as for every request
  that fits. Replies are cut likewise: the owner's name is shown to its end if and only if the reply has at most 1000
  characters (`RingSearch.ReplyArrivesWhole`).

The comments of the source disagree with its code in three places, and the model follows the code: Receive tests
the receive side where the comment says the send side (csma-net-device.cc:676-678); a length/type field of exactly
1500 is a length although the comment says less than 1500 (csma-net-device.cc:720-725); the next packet is started
by TransmitReadyEvent and not by TransmitCompleteEvent as SendFrom's comment says (csma-net-device.cc:948-952).

Conventions. `Choice` collects what a device does not decide: whether an idle channel takes a packet, and the
number of slots drawn. A `Record` is the history of one finished packet: its fate, the retry counter it started
with, its backoffs, and what its attempts found on the wire. The channel object remembers what it was handed
(`carried`), and the simulator the delays it was given. `View()` is the value of an object. The ring takes its
hash and its name-to-address function as parameters, so the results hold of any; the programs use
`HashRing.HashName` and `RingSearch.AddressOf`. A run of the search service is any sequence of user searches and
deliveries in which only what was sent is delivered, any number of times or never; `RingProtocol.NothingLost` is the
hypothesis that everything sent was delivered at least once. A user's search is for one blank-free name, of any
length, that does not contain owner_of; `RingSearch.RequestIsDispatched` says why.

## Model

| member | source | states |
|---|---|---|
| Backoffs.Backoff.Default | assignment 4/assign_4_12CS10046_12CS30022/backoff.cc:28-38 | the default parameters, and a counter of 0 |
| Backoffs.Backoff.WithParams | assignment 4/assign_4_12CS10046_12CS30022/backoff.cc:40-48 | the given parameters, and whatever counter the memory held |
| Backoffs.Backoff.GetBackoffTime | assignment 4/assign_4_12CS10046_12CS30022/backoff.cc:50-76 | the wait is a whole number of slots that the counter allows, including exponents of 32 and more, where the conversion is undefined |
| Backoffs.Backoff.ResetBackoffTime | assignment 4/assign_4_12CS10046_12CS30022/backoff.cc:78-82 | the counter becomes 0 |
| Backoffs.Backoff.MaxRetriesReached | assignment 4/assign_4_12CS10046_12CS30022/backoff.cc:84-88 | true exactly when the counter is at least maxRetries |
| Backoffs.Backoff.IncrNumRetries | assignment 4/assign_4_12CS10046_12CS30022/backoff.cc:90-94 | the counter goes up by one, modulo 2^32 |
| Backoffs.DefaultPicks | assignment 4/assign_4_12CS10046_12CS30022/backoff.cc:28-38 | with the default parameters a backoff drawn after r busy senses is any number of slots from 1 to 2^r - 1, at most 1000, and no other |
| Backoffs.LeastPick | assignment 4/assign_4_12CS10046_12CS30022/backoff.cc:64-72 | no pick lies below minSlots unless the window does, and the lower end of the window is possible |
| Backoffs.PicksAreConvex | assignment 4/assign_4_12CS10046_12CS30022/backoff.cc:72 | every number of slots between two possible ones is possible |
| Backoffs.CeilingStopsDoubling | assignment 4/assign_4_12CS10046_12CS30022/backoff.cc:53-62 | from the ceiling on the window stays as it is, and with a ceiling of 0 it never stops doubling |
| Backoffs.BackoffBounds | assignment 4/assign_4_12CS10046_12CS30022/backoff.cc:72-75 | the wait is a possible number of slots times the slot time |
| Backoffs.WaitsBounded | assignment 4/assign_4_12CS10046_12CS30022/backoff.cc:50-76 | however the slots are drawn, the backoffs of one packet add up to at most the sum of the limits of the counter values passed |
| Backoffs.BoundIsTight | assignment 4/assign_4_12CS10046_12CS30022/backoff.cc:50-76 | that sum is reached by a possible sequence of draws, for every starting counter and length, if the generator can return its upper bound; a half-open one never reaches a limit above its lower bound, because the value is truncated |
| Backoffs.WorstTotalWait | assignment 4/assign_4_12CS10046_12CS30022/backoff.cc:50-76 | closed form of the worst total wait, 2^(C+1) - 2 - C + (R - C)(2^C - 1) slots, for ceiling C and R retries when maxSlots does not clip |
| Backoffs.DefaultWorstTotalWait | assignment 4/assign_4_12CS10046_12CS30022/backoff.cc:28-38 | with the default parameters the worst total wait is 992013 slots |
| Frames.FrameLayout | assignment 4/assign_4_12CS10046_12CS30022/1-persistent/csma-net-device.cc:360-369 | destination, source, length or type with the high byte first, body, and four bytes of checksum over all of it, at their offsets |
| Frames.DixFrame | assignment 4/assign_4_12CS10046_12CS30022/1-persistent/csma-net-device.cc:298-319 | byte by byte: the protocol in the type field, the packet followed by zeros up to 46 bytes, 64 bytes in all at least, whatever the MTU |
| Frames.LlcFrame | assignment 4/assign_4_12CS10046_12CS30022/1-persistent/csma-net-device.cc:320-352 | byte by byte: packet plus 8 in the length field, AA AA 03 00 00 00 and the protocol in front of the packet, zeros up to 46 bytes; built if and only if that fits the MTU |
| Frames.DroppedExactly | assignment 4/assign_4_12CS10046_12CS30022/1-persistent/csma-net-device.cc:664-710 | ignored if and only if it is the receiver's own; dropped if and only if the receiver is disabled, the frame corrupt, or the checksum switched on and wrong |
| Frames.FaultsExactly | assignment 4/assign_4_12CS10046_12CS30022/1-persistent/csma-net-device.cc:725-742 | which assertion a frame fails, by its length field and size, with the limits 1500 and 46 |
| Frames.DeliveredExactly | assignment 4/assign_4_12CS10046_12CS30022/1-persistent/csma-net-device.cc:725-742 | which bytes of the frame are delivered as addresses, payload and protocol |
| Frames.ClassifiedExactly | assignment 4/assign_4_12CS10046_12CS30022/1-persistent/csma-net-device.cc:744-764 | broadcast if and only if all six destination bytes are 255, multicast if and only if the group bit is set otherwise, the receiver's own if and only if it is clear and the address its own, else somebody else's |
| Frames.OneHost | assignment 4/assign_4_12CS10046_12CS30022/1-persistent/csma-net-device.cc:757-764 | of receivers with different addresses at most one takes a frame for its own |
| Frames.ReceiveFramed | assignment 4/assign_4_12CS10046_12CS30022/1-persistent/csma-net-device.cc:697-764 | receiving undoes header and trailer: addresses and packet type are right, the checksum is accepted, and what is left is the length/type reading of the body |
| Frames.LlcRoundTrip | assignment 4/assign_4_12CS10046_12CS30022/1-persistent/csma-net-device.cc:320-352 | every frame that passes the MTU assertion is received with exactly its payload and protocol if and only if payload and LLC header are at most 1500 bytes; the receiver's encapsulation mode plays no part |
| Frames.DixRoundTrip | assignment 4/assign_4_12CS10046_12CS30022/1-persistent/csma-net-device.cc:298-319 | the frame is always built, and is received with its protocol and the payload followed only by zeros up to 46 bytes if and only if the protocol number is above 1500 |
| Transmitter.StartComesToRest | assignment 4/assign_4_12CS10046_12CS30022/1-persistent/csma-net-device.cc:412-544 | no assertion in the mutual recursion of TransmitStart and TransmitAbort fails; it ends with state, packet, counter and posted timer in agreement, and has seized the wire exactly when the device is BUSY |
| Transmitter.StartNextComesToRest | assignment 4/assign_4_12CS10046_12CS30022/1-persistent/csma-net-device.cc:600-611 | the same for taking the next packet from the queue |
| Transmitter.CompleteComesToRest | assignment 4/assign_4_12CS10046_12CS30022/1-persistent/csma-net-device.cc:546-576 | from BUSY on a transmitting wire the completion handler fails no assertion and keeps conservation and order of packets |
| Transmitter.SendComesToRest | assignment 4/assign_4_12CS10046_12CS30022/1-persistent/csma-net-device.cc:914-965 | the same for an accepted or refused SendFrom in any state |
| Transmitter.CounterAfterAttempt | assignment 4/assign_4_12CS10046_12CS30022/1-persistent/csma-net-device.cc:428-498 | the retry counter after an attempt: 0 for a packet taken or given up, one more for a backoff, unchanged for one dropped with the send side off or refused |
| Transmitter.AcceptedExactly | assignment 4/assign_4_12CS10046_12CS30022/1-persistent/csma-net-device.cc:926-946 | in every state of the transmitter a send is accepted if and only if the send side is on and the queue has room, and changes nothing otherwise |
| Transmitter.AbortStep | assignment 4/assign_4_12CS10046_12CS30022/1-persistent/csma-net-device.cc:456-461 | a packet sensed busy with its retries used up is dropped, the counter reset, and the head of the queue tried at once |
| CsmaNetwork.NextKeepsInv | assignment 4/assign_4_12CS10046_12CS30022/1-persistent/csma-net-device.cc:412-612 | inductive step, for any number of devices: no assertion fails and the invariant (state, timer and packet correspond; one talker; conservation) is kept |
| CsmaNetwork.RunKeepsInv | assignment 4/assign_4_12CS10046_12CS30022/1-persistent/csma-net-device.cc:412-612 | over every run from a state with the invariant, no assertion fails and the invariant holds at the end |
| CsmaNetwork.InitialInv | assignment 4/assign_4_12CS10046_12CS30022/1-persistent/csma-net-device.cc:159-179 | freshly constructed devices on an idle wire satisfy the invariant |
| CsmaNetwork.NextDevices | assignment 4/assign_4_12CS10046_12CS30022/1-persistent/csma-net-device.cc:412-612 | a step changes at most the device it names, and a timer fires only in the state that expects it |
| CsmaNetwork.Safety | assignment 4/assign_4_12CS10046_12CS30022/1-persistent/csma-net-device.cc:412-612 | in every reachable state: no assertion has failed; the wire is TRANSMITTING exactly when a device is BUSY and at most one is; every device has exactly the timer its state calls for; finished packets are the accepted ones in order, each waiting no longer than its bound |
| CsmaNetwork.FinishesInOrder | assignment 4/assign_4_12CS10046_12CS30022/1-persistent/csma-net-device.cc:942-962 | the k-th packet to finish is the k-th that was accepted, and its backoffs stay within the total limit |
| CsmaNetwork.AbortBudget | assignment 4/assign_4_12CS10046_12CS30022/1-persistent/csma-net-device.cc:448-473 | exact abort rule under any mix of refusals and switches: an aborted packet found the wire busy at every attempt, and its attempts and what its predecessor left on the counter make maxRetries + 1 |
| CsmaNetwork.InheritsAt | assignment 4/assign_4_12CS10046_12CS30022/1-persistent/csma-net-device.cc:478-497 | every packet starts with the counter its predecessor left: 0 after a sent or aborted one, unchanged after a dropped one |
| CsmaWire.StartCarries | assignment 4/assign_4_12CS10046_12CS30022/1-persistent/csma-net-device.cc:475-499 | a start hands the channel nothing or the packet that is then current, through all recursive aborts |
| CsmaWire.WireCarriesSent | assignment 4/assign_4_12CS10046_12CS30022/1-persistent/csma-net-device.cc:475-576 | in every reachable state the channel has been handed, of each device, exactly its sent packets in order and then the one it is sending |
| CsmaWire.WireKeepsOrder | assignment 4/assign_4_12CS10046_12CS30022/1-persistent/csma-net-device.cc:478-497 | so the wire carries of each device packets it accepted, in the order of acceptance, none twice |
| CsmaProgress.StartLoad | assignment 4/assign_4_12CS10046_12CS30022/1-persistent/csma-net-device.cc:412-544 | a start from BACKOFF strictly lowers the events the device can still cause, through all recursive aborts; one from READY costs at most one packet's share |
| CsmaProgress.NextSpends | assignment 4/assign_4_12CS10046_12CS30022/1-persistent/csma-net-device.cc:412-612 | every fired event uses up at least one unit of what accepted packets have paid, and no other step gives anything back |
| CsmaProgress.RunSpends | assignment 4/assign_4_12CS10046_12CS30022/1-persistent/csma-net-device.cc:412-612 | the same over whole runs with sends and switches in between |
| CsmaProgress.EventsArePaidFor | assignment 4/assign_4_12CS10046_12CS30022/1-persistent/csma-net-device.cc:412-612 | a run from the start fires at most maxRetries + 3 events per accepted packet, summed over all devices |
| CsmaProgress.QuietAfterLoad | assignment 4/assign_4_12CS10046_12CS30022/1-persistent/csma-net-device.cc:412-612 | without new sends a run fires at most the network's load of events, so it becomes quiet |
| CsmaProgress.QuietState | assignment 4/assign_4_12CS10046_12CS30022/1-persistent/csma-net-device.cc:428-433 | nothing is pending if and only if the wire is idle and every device is READY or wedged |
| CsmaProgress.SameAccepted | assignment 4/assign_4_12CS10046_12CS30022/1-persistent/csma-net-device.cc:942-946 | only SendFrom accepts packets |
| CsmaLiveness.StartConservesWork | assignment 4/assign_4_12CS10046_12CS30022/1-persistent/csma-net-device.cc:532-543 | an attempt leaves no idle device with a queue if and only if the send side is on and an idle channel accepts, or nothing waits |
| CsmaLiveness.NoRetriesDrainsQueue | assignment 4/assign_4_12CS10046_12CS30022/1-persistent/csma-net-device.cc:456-461 | with maxRetries 0 one attempt on a busy wire aborts the packet and the whole queue and ends READY |
| CsmaLiveness.HistoryGrows | assignment 4/assign_4_12CS10046_12CS30022/1-persistent/csma-net-device.cc:412-544 | packets once finished keep their record |
| CsmaLiveness.CooperativeNetworksThrive | assignment 4/assign_4_12CS10046_12CS30022/1-persistent/csma-net-device.cc:448-499 | in every reachable state of a network that starts with all send sides on, keeps them on, and whose idle channel never refuses: READY implies an empty queue, the counter is 0 outside BACKOFF, no device is wedged, and a finished packet was sent by the first attempt that sensed idle or aborted after exactly maxRetries + 1 attempts that all sensed busy |
| CsmaLiveness.CooperativeRunsThrive | assignment 4/assign_4_12CS10046_12CS30022/1-persistent/csma-net-device.cc:448-499 | the same from any state that satisfies it, as an invariant of runs |
| CsmaLiveness.WedgedExactly | assignment 4/assign_4_12CS10046_12CS30022/1-persistent/csma-net-device.cc:428-433 | a step leaves a device wedged if and only if it was already, or its backoff timer fired with its send side off |
| CsmaLiveness.WedgedForever | assignment 4/assign_4_12CS10046_12CS30022/1-persistent/csma-net-device.cc:428-433 | a wedged device finishes no packet ever again, even when switched on, and only fills its queue |
| CsmaLiveness.StrandedExactly | assignment 4/assign_4_12CS10046_12CS30022/1-persistent/csma-net-device.cc:428-433 | a step leaves a device READY with packets queued if and only if its own timer's attempt was dropped with more packets behind it, or it was so before and the step is no accepted send of its own that gets through |
| CsmaLiveness.QuietHasFinished | assignment 4/assign_4_12CS10046_12CS30022/1-persistent/csma-net-device.cc:569-610 | once a cooperative network is quiet, each device's finished packets are exactly those it accepted, in order, and all were sent or aborted |
| CsmaLiveness.CooperativeRunsFinish | assignment 4/assign_4_12CS10046_12CS30022/1-persistent/csma-net-device.cc:412-612 | the same for every cooperative run from the start that has come to rest |
| CsmaLiveness.StrandedFullForever | assignment 4/assign_4_12CS10046_12CS30022/1-persistent/csma-net-device.cc:942-953 | a stranded device with a full queue stays as it is in every run, its own sends included |
| CsmaLiveness.StrandedUntilSend | assignment 4/assign_4_12CS10046_12CS30022/1-persistent/csma-net-device.cc:953-963 | a stranded device finishes nothing and keeps its queue in every run without a send of its own |
| CsmaWitnesses.RefusalShortensNextBudget | assignment 4/assign_4_12CS10046_12CS30022/1-persistent/csma-net-device.cc:478-484 | a run of two devices from the start in which a refusal makes the next packet abort at its first busy sense |
| CsmaWitnesses.RefusalClogsFullQueue | assignment 4/assign_4_12CS10046_12CS30022/1-persistent/csma-net-device.cc:478-484 | a run of two devices from the start in which a refusal leaves a device READY with a full queue |
| CsmaWitnesses.SwitchingOffStrands | assignment 4/assign_4_12CS10046_12CS30022/1-persistent/csma-net-device.cc:428-433 | a run of two devices from the start that ends READY with a packet queued |
| CsmaWitnesses.SwitchingOffWedges | assignment 4/assign_4_12CS10046_12CS30022/1-persistent/csma-net-device.cc:428-433 | a run of two devices from the start that ends in BACKOFF without packet and timer |
| CsmaLiveness.UnsetCounterDecides | assignment 4/assign_4_12CS10046_12CS30022/backoff.cc:40-48 | with the counter left unset the first packet, sensed busy, backs off if and only if the value found is below maxRetries, and is aborted otherwise |
| CsmaDevices.CsmaNetDevice.SetSendEnable | assignment 4/assign_4_12CS10046_12CS30022/1-persistent/csma-net-device.cc:234-239 | changes the send side and nothing else |
| CsmaDevices.CsmaNetDevice.TransmitStart | assignment 4/assign_4_12CS10046_12CS30022/1-persistent/csma-net-device.cc:411-500 | device, channel and event bag end exactly as Transmitter.TransmitStart says for some possible choice, and the channel is handed the packet that is then being sent, and nothing else |
| CsmaDevices.CsmaNetDevice.BackOff | assignment 4/assign_4_12CS10046_12CS30022/1-persistent/csma-net-device.cc:463-473 | the counter goes up, one possible wait is drawn for its new value, and one start timer is posted with that many slots of delay |
| CsmaDevices.CsmaNetDevice.Seize | assignment 4/assign_4_12CS10046_12CS30022/1-persistent/csma-net-device.cc:475-499 | the channel is handed the current packet under the device's number, and takes it, with a completion timer after its transmission time and the device BUSY, or refuses it and the packet is dropped |
| CsmaDevices.CsmaNetDevice.TransmitAbort | assignment 4/assign_4_12CS10046_12CS30022/1-persistent/csma-net-device.cc:502-544 | the same for TransmitAbort |
| CsmaDevices.CsmaNetDevice.StartNext | assignment 4/assign_4_12CS10046_12CS30022/1-persistent/csma-net-device.cc:600-611 | the same for taking the next packet from the queue |
| CsmaDevices.CsmaNetDevice.TransmitCompleteEvent | assignment 4/assign_4_12CS10046_12CS30022/1-persistent/csma-net-device.cc:546-576 | the same for TransmitComplete, with the channel's end of propagation posted, and the ready timer after the interframe gap |
| CsmaDevices.CsmaNetDevice.TransmitReadyEvent | assignment 4/assign_4_12CS10046_12CS30022/1-persistent/csma-net-device.cc:578-612 | the same for TransmitReady |
| CsmaDevices.CsmaNetDevice.SendFrom | assignment 4/assign_4_12CS10046_12CS30022/1-persistent/csma-net-device.cc:914-965 | refused with the send side off or a full queue; otherwise the packet is framed in place, queued and perhaps started, as SendFrame says; a framing fault leaves the transmitter as it was |
| CsmaDevices.CsmaNetDevice.AddHeader | assignment 4/assign_4_12CS10046_12CS30022/1-persistent/csma-net-device.cc:280-370 | the packet becomes the frame of Frames.AddHeader, or the fault is reported |
| CsmaDevices.CsmaNetDevice.Receive | assignment 4/assign_4_12CS10046_12CS30022/1-persistent/csma-net-device.cc:654-789 | the outcome is that of Frames.Receive, for every frame however malformed, and the packet is stripped down to the delivered payload |
| CsmaSimulation.Network.constructor | assignment 4/assign_4_12CS10046_12CS30022/1-persistent/csma-net-device.cc:159-179 | new devices on one idle channel and simulator make a network in its initial state, with the invariant every method needs |
| CsmaSimulation.Network.Send | assignment 4/assign_4_12CS10046_12CS30022/1-persistent/csma-net-device.cc:914-965 | on objects: a send is a Send step of the network, hands the channel what CsmaWire says of that step, and keeps its invariant |
| CsmaSimulation.Network.Fire | assignment 4/assign_4_12CS10046_12CS30022/1-persistent/csma-net-device.cc:412-612 | on objects: any pending event can be run; the assertions are the handlers' preconditions and hold; it is a Fire step, hands the channel what CsmaWire says of that step, and keeps the invariant |
| CsmaSimulation.Network.RunUntilQuiet | assignment 4/assign_4_12CS10046_12CS30022/1-persistent/csma-net-device.cc:412-612 | the event loop terminates, with the wire idle and every device READY or wedged, having accepted nothing |
| CsmaSimulation.FireLowersLoad | assignment 4/assign_4_12CS10046_12CS30022/1-persistent/csma-net-device.cc:412-612 | firing one event strictly lowers the network's load, which stays a natural number |
| OatHash.OatHash | assignment 6/assignment 6 12CS10046/__init.cpp:27-43 | the loop computes the hash specification, with signed characters and arithmetic modulo 2^64 |
| OatHash.RoundLiterally | assignment 6/assignment 6 12CS10046/__init.cpp:33-35 | a round in plain arithmetic: add the signed character, times 1025 modulo 2^64, exclusive or with the quotient by 64 |
| OatHash.FinishLiterally | assignment 6/assignment 6 12CS10046/__init.cpp:38-40 | the finaliser in plain arithmetic: times 9, exclusive or with the quotient by 2048, times 32769, modulo 2^64 |
| OatHash.HashOfEmpty | assignment 6/assignment 6 12CS10046/__init.cpp:29 | the empty name hashes to 0 |
| OatHash.HashGrows | assignment 6/assignment 6 12CS10046/__init.cpp:32-42 | one more character is one more round before the finaliser, which with HashOfEmpty gives the hash of every name |
| OatHash.HashOfLetterA | assignment 6/assignment 6 12CS10046/__init.cpp:27-43 | the name a hashes to 29161854018 |
| OatHash.MixInverse | assignment 6/assignment 6 12CS10046/__init.cpp:34 | h += h << k is undone, both ways, by multiplication with the inverse of 1 + 2^k |
| OatHash.FoldInverse | assignment 6/assignment 6 12CS10046/__init.cpp:35 | h ^= h >> k is undone, both ways, by unfolding blocks of k bits |
| OatHash.RoundBijective | assignment 6/assignment 6 12CS10046/__init.cpp:32-36 | for a fixed character a round is a bijection of 64-bit words |
| OatHash.RoundSeparates | assignment 6/assignment 6 12CS10046/__init.cpp:33-35 | for a fixed word a round tells all characters apart |
| OatHash.FinishBijective | assignment 6/assignment 6 12CS10046/__init.cpp:38-40 | the finaliser is a bijection of 64-bit words |
| OatHash.AbsorbInjective | assignment 6/assignment 6 12CS10046/__init.cpp:32-36 | absorbing any text is injective in the word it starts from |
| OatHash.CommonEnding | assignment 6/assignment 6 12CS10046/__init.cpp:27-43 | two names collide if and only if they collide with any common ending appended |
| OatHash.NoSingleCharacterCollision | assignment 6/assignment 6 12CS10046/__init.cpp:27-43 | names of one length that differ in exactly one character have different hashes |
| HashRing.NameEndsAtZero | assignment 6/assignment 6 12CS10046/__init.cpp:83-85 | a node id is the hash of the name's character codes up to its first zero character |
| HashRing.NamesApart | assignment 6/assignment 6 12CS10046/__init.cpp:83-85 | names of one length that differ in exactly one 8-bit character have different node ids |
| HashRing.IdOfLetterA | assignment 6/assignment 6 12CS10046/__init.cpp:83-85 | the one-letter name a has the node id 29161854018 |
| Text.ReadWord | assignment 6/assignment 6 12CS10046/server.cpp:205-211 | getline reads back the next word of a spaced text, and whether the stream is still good |
| Text.SpacedArrives | assignment 6/assignment 6 12CS10046/server.cpp:177-179 | a spaced message of at most 1001 characters passes the 1000-byte receive whole but perhaps for its last blank |
| Text.PrintScan | assignment 6/assignment 6 12CS10046/server.cpp:304-305 | a printed decimal number is one word without a colon and scans back to itself, negative ones included |
| Text.SpaceKinds | assignment 6/assignment 6 12CS10046/__init.cpp:226 | which characters scanning skips |
| Text.ScanAround | assignment 6/assignment 6 12CS10046/__init.cpp:226 | scanning skips blanks in front, and reads a printed number back whatever follows it that is no digit |
| Text.ScanOthers | assignment 6/assignment 6 12CS10046/__init.cpp:226 | a plus sign is read over; a text without a number in front is none, and 0 to atoi |
| Text.PrintSample | assignment 6/assignment 6 12CS10046/server.cpp:304 | how some numbers are printed |
| HashRing.OwnerIsArc | assignment 6/assignment 6 12CS10046/__init.cpp:179-202 | every 64-bit key has exactly one owner on a sorted ring, the node whose circular arc (id of predecessor, own id] holds it; of equal ids only the first owns anything |
| HashRing.SelectedIsHome | assignment 6/assignment 6 12CS10046/__init.cpp:192-199 | on a sorted ring the first node with the least id not below the key, or node 0, is the hash successor, and no other position is |
| HashRing.MapFileToNode | assignment 6/assignment 6 12CS10046/__init.cpp:179-202 | on any ring, sorted or not: never NULL, and the first node with the least id not below the key, or node 0 when there is none |
| HashRing.SortNodes | assignment 6/assignment 6 12CS10046/__init.cpp:236 | the ring ends as a sorted arrangement of the same nodes |
| HashRing.LinkRing | assignment 6/assignment 6 12CS10046/__init.cpp:237-241 | every node is told the names of its two neighbours on the ring and nothing else changes |
| HashRing.WalkGoesRound | assignment 6/assignment 6 12CS10046/__init.cpp:238-241 | k steps along successor names lead from node i to (i + k) mod n |
| HashRing.RingIsOneCycle | assignment 6/assignment 6 12CS10046/__init.cpp:238-241 | the links form one cycle through all n nodes, j is reached from i after exactly (j - i) mod n steps, and predecessor undoes successor |
| HashRing.PlaceFiles | assignment 6/assignment 6 12CS10046/__init.cpp:242-254 | the nested loops leave every node's map extended by exactly its slice of the simple index |
| HashRing.PlaceOne | assignment 6/assignment 6 12CS10046/__init.cpp:248-252 | one more listing changes the placement at the hash successor of the file and nowhere else |
| HashRing.IndexIsLastLister | assignment 6/assignment 6 12CS10046/__init.cpp:243-253 | a file is indexed if and only if some node listed it, with the last such node in ring order as its value |
| HashRing.PlacementAgrees | assignment 6/assignment 6 12CS10046/__init.cpp:236-254 | a node knows a file if and only if some node listed it and its hash lies in the node's own arc, and what it knows is the name of the last node in ring order that listed it |
| HashRing.LastLister | assignment 6/assignment 6 12CS10046/__init.cpp:243-253 | every listed file has a last node that listed it |
| HashRing.EachFileHeldOnce | assignment 6/assignment 6 12CS10046/__init.cpp:236-254 | the nodes' maps are pairwise disjoint and together hold exactly the listed files |
| RingMessages.BuildRegistration | assignment 6/assignment 6 12CS10046/server.cpp:302-314 | the message is ip, port, count and the files in order, each followed by a blank |
| RingMessages.RegistrationText | assignment 6/assignment 6 12CS10046/server.cpp:306-314 | the message word by word, a blank behind each |
| RingMessages.RegistrationSample | assignment 6/assignment 6 12CS10046/server.cpp:306-314 | a registration of two files, spelled out |
| RingMessages.ParseRegistration | assignment 6/assignment 6 12CS10046/__init.cpp:217-232 | the getline loop reads the registration of Registered, for any message and any count, negative or missing included |
| RingMessages.RegistrationRoundTrip | assignment 6/assignment 6 12CS10046/__init.cpp:212-232 | a registration of blank-free words up to 1001 characters gives the bootstrap the same ip, port, count and files in order |
| RingMessages.SplitAddress | assignment 6/assignment 6 12CS10046/__init.cpp:93-108 | ip and port are recovered from ip:port and the node is hashed by the whole name |
| RingMessages.BuildTopology | assignment 6/assignment 6 12CS10046/__init.cpp:257-261 | the message is successor, predecessor and every entry of the map once in some order |
| RingMessages.ParseTopology | assignment 6/assignment 6 12CS10046/server.cpp:318-329 | the getline loop reads the topology of ReadTopology, for any message, including one cut in the middle of a pair |
| RingMessages.ReadTopologyBack | assignment 6/assignment 6 12CS10046/server.cpp:323-329 | from any text that carries the words the peer rebuilds exactly successor, predecessor and map |
| RingMessages.TopologyRoundTrip | assignment 6/assignment 6 12CS10046/server.cpp:318-329 | a topology message of at most 1001 characters rebuilds exactly the same successor, predecessor and map, in whatever order it was walked |
| RingMessages.TruncationCorrupts | assignment 6/assignment 6 12CS10046/server.cpp:177-179 | a message beyond 1001 characters by no more than its last value is read into a map wrong in exactly that value |
| RingTruncation.MessageSample | assignment 6/assignment 6 12CS10046/__init.cpp:257-261 | a topology message with two files, spelled out |
| RingTruncation.RebuiltExactly | assignment 6/assignment 6 12CS10046/server.cpp:318-329 | for a message of any length and any order of files: the peer rebuilds successor, predecessor and map if and only if it has at most 1001 characters or is cut right behind the last file name with the value read before repeating (or, with no files, right behind a 1000-character successor with an empty predecessor) |
| RingTruncation.LongerCutLosesKey | assignment 6/assignment 6 12CS10046/server.cpp:318-329 | a cut before the end of the last file name loses a listed file, the last one itself unless its name begins another's |
| RingTruncation.OneTooLong | assignment 6/assignment 6 12CS10046/server.cpp:177-179 | a concrete message of 1002 characters that the peer reads wrong |
| RingTruncation.SameOwnerSurvives | assignment 6/assignment 6 12CS10046/server.cpp:326-329 | a message that ends with two files of one owner and is cut right behind the second name is read right |
| RingTruncation.FirstPairCut | assignment 6/assignment 6 12CS10046/server.cpp:326-329 | what is read of the first pair for every position of a cut; right behind a non-empty key the value read before is stored again |
| RingTruncation.PairsCut | assignment 6/assignment 6 12CS10046/server.cpp:326-329 | pairs that lose more than their last blank are read back whole if and only if the cut is right behind the last key and its value is the one read before |
| Bootstraps.Collect | assignment 6/assignment 6 12CS10046/__init.cpp:210-233 | every message becomes the node of its registration |
| Bootstraps.MailAll | assignment 6/assignment 6 12CS10046/__init.cpp:255-265 | every node is mailed its neighbours and its map, to its own address |
| Bootstraps.Bootstrap | assignment 6/assignment 6 12CS10046/__init.cpp:205-268 | from messages to mails: some sorted arrangement of the registered nodes is linked, files are placed on it, and every node is mailed its part |
| Bootstraps.RegistrantBecomesNode | assignment 6/assignment 6 12CS10046/__init.cpp:212-233 | a registration sent by a peer becomes the node with exactly its address, name, hash and files |
| Bootstraps.PeerLearnsItsPlace | assignment 6/assignment 6 12CS10046/server.cpp:318-329 | a peer whose mail fits ends up with the neighbours and the slice the bootstrap computed |
| RingSearch.SearchRequest | assignment 6/assignment 6 12CS10046/server.cpp:205-229 | a well-formed request is answered to the asker with the stored owner if the file is here, else sent on unchanged to the successor |
| RingSearch.AddressOfName | assignment 6/assignment 6 12CS10046/server.cpp:215-219 | a printed address is split and its port read back, so different hosts or ports are different addresses |
| RingSearch.ContainsSplits | assignment 6/assignment 6 12CS10046/server.cpp:431-434 | a blank-free pattern occurs in two words joined by a blank if and only if it occurs in one of them |
| RingSearch.RequestIsDispatched | assignment 6/assignment 6 12CS10046/server.cpp:429-437 | a received request is searched for if and only if neither file name nor asker contains owner_of |
| RingSearch.ReplyIsShown | assignment 6/assignment 6 12CS10046/server.cpp:431-433 | a received reply, even cut at 1000 bytes, is shown and never mistaken for a request |
| RingSearch.QueryHeard | assignment 6/assignment 6 12CS10046/server.cpp:205-211 | what search_func reads in a received request of any length: which part of the file name, and which part of the asker's name or of the word in front of it |
| RingSearch.ReplyText | assignment 6/assignment 6 12CS10046/server.cpp:214 | a reply is the four words owner_of, file, is, owner; read word by word it gives file and owner |
| RingSearch.ReplyNamesBoth | assignment 6/assignment 6 12CS10046/server.cpp:214 | a reply names one file and one owner |
| RingSearch.DispatchedExactly | assignment 6/assignment 6 12CS10046/server.cpp:429-437 | any text is shown if and only if owner_of occurs, searched for if and only if search occurs and owner_of does not, and ignored otherwise |
| RingSearch.RequestIsHeard | assignment 6/assignment 6 12CS10046/server.cpp:429-437 | a received request of any length is searched for as it is heard and passed on as it arrived |
| RingSearch.ReplyArrivesWhole | assignment 6/assignment 6 12CS10046/server.cpp:177-179 | a reply is received whole, owner's name included, if and only if it has at most 1000 characters |
| RingProtocol.RunKeeps | assignment 6/assignment 6 12CS10046/server.cpp:429-437 | over every run with loss, reordering and duplication: every datagram sent means a request or an answer that is justified by an earlier one and by a user's search |
| RingProtocol.AnswersAreRight | assignment 6/assignment 6 12CS10046/server.cpp:205-229 | in every reachable state each reply sent is the answer to a search that was made, and everything shown is the outcome of one |
| RingProtocol.AnswerNeedsAllForwards | assignment 6/assignment 6 12CS10046/server.cpp:221-227 | an answer exists only after the request was sent to each peer from the asker's successor to the one that answers |
| RingProtocol.ShownExactly | assignment 6/assignment 6 12CS10046/server.cpp:205-229 | in every run in which nothing sent is lost, with any traffic in it, exactly the outcomes of the searches made are shown |
| RingProtocol.AnswerIsSent | assignment 6/assignment 6 12CS10046/server.cpp:205-229 | in every such run the answer to every search that somebody can answer is sent |
| RingProtocol.JourneyLosesNothing | assignment 6/assignment 6 12CS10046/server.cpp:205-229 | a search followed by its deliveries is a run in which nothing is lost, so the hypothesis can be met |
| RingProtocol.SearchIsAnswered | assignment 6/assignment 6 12CS10046/server.cpp:205-229 | after any run, exactly the deliveries of the request at each peer up to the one that answers, and one of the answer, show the answer where it arrives |
| RingProtocol.UnplacedIsNeverAnswered | assignment 6/assignment 6 12CS10046/server.cpp:221-227 | in every run in which only searches are made that nobody answers, nothing is ever shown and every datagram is some asker's request |
| RingProtocol.UnplacedSearchCirculates | assignment 6/assignment 6 12CS10046/server.cpp:221-227 | from any state with the first request of such a search under way, n deliveries take it through the other n - 1 peers and back to its asker, who sends it on again; nothing is shown |
| RingService.HandleSearch | assignment 6/assignment 6 12CS10046/server.cpp:205-229 | a peer k steps from the asker, receiving a request of any length, answers if and only if it is the home of the file that is heard, else sends what arrived to its ring successor |
| RingService.ServiceIsFaithful | assignment 6/assignment 6 12CS10046/server.cpp:205-229 | peers with ring links and slices of one index do with the texts what the protocol's messages mean |
| RingService.ProgramsBehave | assignment 6/assignment 6 12CS10046/server.cpp:429-437 | search_func and the dispatch loop satisfy what the service assumes of them |
| RingService.BootstrapSetsUp | assignment 6/assignment 6 12CS10046/__init.cpp:236-254 | linking and placing provide the service's set-up: links, slices and distinct addresses |
| RingService.SentOwnersRegistered | assignment 6/assignment 6 12CS10046/server.cpp:213-219 | in any run on any ring, for searches of any length, every answer sent names the last node on the ring that registered the file it is about, and goes to the name that was heard |
| RingService.ShownOwnersRegistered | assignment 6/assignment 6 12CS10046/server.cpp:429-437 | everything shown is such an answer arrived where it was addressed, and if nothing is lost all of them are shown |
| RingService.FittingSearchesAreRight | assignment 6/assignment 6 12CS10046/server.cpp:429-437 | as long as all requests made have at most 1000 characters, whatever a peer shows answers a search of its own and names the last node that registered the file |
| RingService.RightExactly | assignment 6/assignment 6 12CS10046/server.cpp:205-229 | the answer to a search for a registered file goes to the asker and names that file's owner if and only if it reaches (RingService.Reaches) |
| RingService.CutAskerReaches | assignment 6/assignment 6 12CS10046/server.cpp:177-179 | with the request cut within the asker's name, that is if and only if the cut name has the asker's address |
| RingService.FittingReaches | assignment 6/assignment 6 12CS10046/server.cpp:177-179 | every search whose request has at most 1000 characters reaches |
| RingService.RegisteredFilesAreFound | assignment 6/assignment 6 12CS10046/server.cpp:205-229 | in every run in which nothing is lost, every search for a registered file that reaches is answered on the asker's screen with its owner |
| RingService.FoundExactly | assignment 6/assignment 6 12CS10046/server.cpp:205-229 | in every run in which nothing is lost and one search is made, the right answer is sent to the asker if and only if the search reaches |
| RingService.ShownToAskerExactly | assignment 6/assignment 6 12CS10046/server.cpp:429-437 | and the asker shows it if and only if the search reaches |
| RingService.FoundWithinDistance | assignment 6/assignment 6 12CS10046/server.cpp:205-229 | the deliveries a search that reaches takes: the request once at each of the (home - start) mod n peers after the asker, then the answer |
| RingService.UnregisteredSearchReturns | assignment 6/assignment 6 12CS10046/server.cpp:221-227 | a search for a file nobody registered is back at its asker after n deliveries, as the request it was sent as if that fits a datagram and cut to one otherwise |
| RingWitness.WrongPeerShows | assignment 6/assignment 6 12CS10046/server.cpp:205-229 | a run in which nothing is lost, on the ring of three peers with the real search_func, dispatch loop and addresses and a chosen hash: a request of 1001 characters makes a peer show an answer it never asked for, and the asker nothing |
| RingWitness.TrioMessagesFit | assignment 6/assignment 6 12CS10046/server.cpp:302-329 | the registration and the mail behind that run fit a datagram |
| RingSystem.Deploy | assignment 6/assignment 6 12CS10046/server.cpp:316-329 | the set-up of both programs in one: the bootstrap run on any peers' registrations and its mails read by the peers at their addresses deploy a system, if the mails fit |
| RingSystem.PeersAsComputed | assignment 6/assignment 6 12CS10046/server.cpp:318-329 | from registration messages over the bootstrap's ring and mails, every peer ends up exactly as the bootstrap computed it |
| RingSystem.AddressOfResolves | assignment 6/assignment 6 12CS10046/server.cpp:215-219 | a name is split into host and 16-bit port |
| RingSystem.SentIsOwner | assignment 6/assignment 6 12CS10046/server.cpp:213-219 | end to end, from what the peers register, for searches of any length: every answer sent names a peer that registered the file it is about, the one of highest hash, and goes to the asker or to the name that was heard |
| RingSystem.ShownIsOwner | assignment 6/assignment 6 12CS10046/server.cpp:429-437 | and whatever a peer shows is the received text of such an answer addressed to it |
| RingSystem.FittingShownIsOwner | assignment 6/assignment 6 12CS10046/server.cpp:429-437 | as long as all requests made have at most 1000 characters, whatever a peer shows answers a search of its own and names an owner of the file |
| RingSystem.SentNamesOwner | assignment 6/assignment 6 12CS10046/server.cpp:213-219 | every answer sent, read word by word, gives a file and the name of a peer of highest hash that registered it |
| RingSystem.ShownNamesOwner | assignment 6/assignment 6 12CS10046/server.cpp:429-437 | as long as all requests made fit, a text shown that was not cut, read word by word, gives a file this peer searched for and the name of its owner |
| RingSystem.EveryFileIsFound | assignment 6/assignment 6 12CS10046/server.cpp:205-229 | end to end: in every run in which nothing is lost, every search for a file anybody registered is answered on the asker's screen if it reaches, as it does if its request has at most 1000 characters, and the answer read word by word gives the file and its owner if it has less than 1000 |
| RingSystem.FileIsFoundExactly | assignment 6/assignment 6 12CS10046/server.cpp:205-229 | and if it is the only search made, the right answer is sent to the asker if and only if it reaches |

## Left out

From the CSMA component:

- ns-3 plumbing: type registration, attributes, logging, trace sources, getters and setters, multicast address mapping, link callbacks.
- Classes whose source is not here, kept to a minimal contract: a queue that is FIFO with a capacity, a channel that takes a packet only when idle and may refuse, a checksum that is any function of the bytes, a random value anywhere between its two bounds (both included), an Ethernet and an LLC/SNAP header of fixed layout.
- Real time: pending events are an unordered bag, so the results hold for every order of timers; the delays they are posted with are recorded but decide nothing.
- Re-attaching a device and changing backoff parameters while packets are under way; IsLinkUp is taken to hold.
- Delivery of a transmitted frame by the channel to the receivers, which depends on csma-channel.cc, not part of this model; Receive is modelled for every frame it can be given.
- Trace sinks and callbacks that call back into the device.
- Packets are queued by value: a caller that keeps changing a packet after SendFrom is not captured.
- Packet sizes beyond 32 bits.
- Which callbacks a delivered packet goes to: the outcome carries payload, protocol, addresses and packet type.

From the hash ring:

- Sockets, fork, the standard input dialogue, `download_func` and the TCP file server.
- The iteration order of std::map and the algorithm inside std::sort: any order, and any sorted arrangement (which may reorder nodes with equal ids), are allowed.
- HashRing.SortNodes: promises some sorted permutation, as std::sort does, by a selection sort of its own.
- Messages of 2048 bytes and more, which overrun the fixed character buffers, and integer overflow inside sscanf and atoi.
- Search commands of more than one word: their extra words are read as parts of the request; a user's search is one blank-free file name here.
- RingService.ShownToAskerExactly: covers file names of at most 993 characters, the most a request carries; replies about longer ones are cut before the owner's name, and what is sent for them is in RingService.FoundExactly.
- RingSystem.Deployed: assumes that every registration and every mail fits its 1001 characters and arrives; what a longer mail does is in RingTruncation.
- Characters are single bytes: the hash takes codes modulo 256.

Not modelled at all: assignment 5, the network lab test programs, both no.py scripts, udp-echo.cc, and the plots, traces and tables.
