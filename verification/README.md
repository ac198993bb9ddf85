# Verified model of the Bluetooth emulation, audio and slot-pool code

This project models the repository's stateful cores and proves what they keep over every run. Each core
has a specification, a pure state machine or a declarative meaning, and beside it the code in its own
form: an object whose methods update its fields, or loops over buffers, each method proved to perform
exactly the specified step. The laws are proved about the specification. What its single definitions
mean, who is told, which byte is which, what is refused, is stated once more in laws of its own, without
them (`MgmtRequestAnswers`, `MgmtNotifyAudience`, `BtdevCalls`, `EirFields`, `CommandTables`, `WaveFormats`).

- **Management client** (`MgmtRequests`, `MgmtNotify` and their laws): two send queues, a pending list
  and a one-shot write watch; and a list of registered callbacks that may edit the list while an event is
  being dispatched over it.
- **Command credits** (`CommandCredits`): an emulated host joined to an emulated controller, with
  commands and events in flight between them.
- **Controllers** (`Btdev`): the device table, peer connections, advertising and scanning, and the
  forwarding of data packets.
- **Data packets and signalling** (`AclPackets`, `AclForwarding`, `AclEndToEnd`, `L2capRequests`): packets from
  one host through two controllers to the other host, and requests that wait for an answer.
- **Extended inquiry response** (`Eir`): a generator of out-of-band blocks and a parser.
- **WAVE files** (`Wave`): the recorder's header and the player's streaming chunk parser.
- **Channel maps** (`ChannelMap`): finding the hardware channels for requested positions and rearranging
  the samples.
- **Smaller machines**: the sound segmenter (`SoundSegments`), the staged test runner (`CaseRunner`) and
  the slot pool (`SlotPool`).

The modules `Arithmetic`, `Counting`, `Octets`, `Options` and `Buffers` hold what several of these share.
Heap blocks are named by serial numbers: the n-th accepted request, device or item has serial n.

## Where the code differs from what one would expect

The model follows the code. Each of these has a lemma that shows it, and where a law depends on it, the
law's exact condition.

- Cancelling all requests of a controller does not wake the writer, so it can leave work queued that
  nobody picks up until the next call (`MgmtRequestLaws.CancelIndexStallsIff`, `NeverStallsIff`).
- A reply may jump the queue, but the second of two waits unarmed for the answer to the first
  (`MgmtRequestLaws.RepliesArmedIff`).
- A callback that unregisters its own entry ends the dispatch, because the entry's successor is then its
  successor among the deferred entries (`MgmtNotifyOrder.CutIffUnguarded`, `SelfRemovalCutsShort`,
  `MgmtNotifyGuards.NamedCutsIff`).
- The host's command queue is entered and left at its tail, so the newest waiting command is sent and
  older ones are lost or overtaken (`CommandCreditLaws.FifoIff`, `AddressQueryLost`, `CallbackOvertakes`).
- Starting the host again sets its credit whatever is in flight (`CommandCreditLaws.SingleCreditAlwaysIff`).
- Adding a synchronous connection is not answered at all (`CommandCreditLaws.OneAnswerIff`).
- The list of supported commands shows one command that classic controllers do not know and one that low
  energy controllers do not know, and leaves out some that they do (`CommandTables.ShownIsKnownIff`,
  `KnownButNotShown`).
- A new connection overwrites what either end was connected to (`BtdevConnections.SymmetricAlwaysIff`), and
  a device left behind can go on sending to a host that has hung up (`AclEndToEnd.EndToEndIff`,
  `OverwrittenStillArrives`, `HungUpLost`).
- The identifier counter of signalling packets starts over with every packet, so all automatic
  identifiers are 1 and one answer settles every request (`L2capRequests.OneAnswerSettlesAll`).
- The service pass tests for room before it tests for a repetition, so a list can be marked as cut
  although it is complete (`EirLaws.CutThoughCompleteIff`, `CutMayBeComplete`).
- The list of long services is written even when it is empty, to say that something was left out, but not
  once more than 238 bytes are used: then they are left out without a word (`EirLaws.LongListMissingIff`,
  `LongServiceUnsaid`).
- The frame size of a recording is cut to sixteen bits, which makes the player give up on 24 bit
  recordings with very many channels (`WaveLaws.HeaderRoundTrip`).
- Samples are gathered through the channel map although the map says where they should go, which is right
  only when channels trade places (`ChannelMapGuards.ReachesIff`, `DistinctReachesIff`,
  `ChannelMap.ShiftedSpeakersMiss`).
- With a position requested twice, a channel that moves can take the place of one that fits
  (`ChannelMap.MapPermutesIff`).
- A report of a test stage that comes twice starts the next stage twice (`CaseRunner.OneThroughoutIff`).

## Model

| member | source | states |
|---|---|---|
| MgmtRequestLaws.NeverStalls | library/libvbt/mgmt.c:125-183 | after any run without a hangup and without cancelling a whole controller: while a request or reply is queued, the write watch is armed or something is pending |
| MgmtRequestLaws.StepStallsIff | library/libvbt/mgmt.c:125-183 | from a state that does not stall a step leads to one that does exactly when its guard fails, which only a hangup and the cancelling of a controller can do |
| MgmtRequestLaws.CancelIndexStallsIff | library/libvbt/mgmt.c:624-674 | cancelling a controller leaves the client stalled exactly when no watch is armed, nothing of another controller is pending, and something of another controller is queued |
| MgmtRequestLaws.CancelIndexCanStall | library/libvbt/mgmt.c:624-674 | a run of four calls that reaches such a stall |
| MgmtRequestLaws.NextCallRecovers | library/libvbt/mgmt.c:529-581 | whatever stalled the client, the next accepted send or reply ends the stall |
| MgmtRequestLaws.PlacesStep | library/libvbt/mgmt.c:81-90 | no step loses or copies a request, and only an accepted call adds one |
| MgmtRequestLaws.ExactlyOnePlace | library/libvbt/mgmt.c:81-90 | over any run every accepted request is in exactly one of request queue, reply queue, pending list and graveyard, hence destroyed at most once |
| MgmtRequestLaws.StepEvents | library/libvbt/mgmt.c:81-90 | a request destroyed by an answer or a failed write has just had its callback run; a cancel runs none |
| MgmtRequestLaws.CallbackAtMostOnce | library/libvbt/mgmt.c:200-224 | over any run a callback runs at most once and never after its request was destroyed or cancelled |
| MgmtRequestLaws.IdsFollowSerials | library/libvbt/mgmt.c:486-581 | over any run the id of the n-th accepted request is 1 + n mod (2^32 - 1), in all three lists |
| MgmtRequestLaws.NewIdIsFresh | library/libvbt/mgmt.c:529-581 | the next id is never 0, and equals the id of a live request exactly when a multiple of 2^32 - 1 calls lies between the two |
| MgmtRequestLaws.CancelDestroysNamed | library/libvbt/mgmt.c:583-622 | cancelling a live request by an id it shares with no other live request destroys that request, nothing else, and runs no callback, wherever it is |
| MgmtRequestOrder.OnlyRepliesJump | library/libvbt/mgmt.c:125-167 | over any run at most one pending request came from the request queue, and it heads the pending list |
| MgmtRequestOrder.WrittenInCallOrder | library/libvbt/mgmt.c:125-167 | over any run requests of one queue are written in the order of the calls, all before those still waiting |
| MgmtRequestOrder.PendingAlwaysOutstanding | library/libvbt/mgmt.c:125-224 | over any run the pending list is the list of writes not yet destroyed, in write order |
| MgmtRequestAnswers.AnswerGoesToOldestWrite | library/libvbt/mgmt.c:185-224 | a response answers the oldest outstanding write with both its opcode and its controller: every earlier write with both has already been destroyed |
| MgmtRequestLaws.NeverStallsIff | library/libvbt/mgmt.c:125-183 | a client never stalls during a run exactly when every step of it met its guard |
| MgmtRequestLaws.ReplyArmedIff | library/libvbt/mgmt.c:125-183 | exactly when a reply still waiting after a step has its watch armed |
| MgmtRequestLaws.RepliesArmedIff | library/libvbt/mgmt.c:125-183 | during a run a waiting reply always has its watch armed exactly when no hangup finds one waiting and no write succeeds while two wait |
| MgmtRequestLaws.SecondReplyWaits | library/libvbt/mgmt.c:125-183 | after two replies and one write the second reply waits unarmed, although replies may jump the queue |
| MgmtRequestLaws.SameIdIff | library/libvbt/mgmt.c:486-581 | two requests have the same id exactly when a multiple of 2^32 - 1 calls lies between them |
| MgmtRequestLaws.UnsharedBeforeWrap | library/libvbt/mgmt.c:486-581 | before the ids wrap no live request shares its id |
| MgmtRequestAnswers.ResponseTakesFirst | library/libvbt/mgmt.c:185-224 | a response takes the first pending request with its opcode and its controller off the list, runs its callback with the response's status, destroys it, and does nothing else to the lists |
| MgmtRequestAnswers.StrayResponse | library/libvbt/mgmt.c:185-224 | a response that no pending request has both the opcode and the controller of does nothing |
| MgmtRequestAnswers.AnswersItsOwnIff | library/libvbt/mgmt.c:185-224 | what a response answers has its opcode and its controller, and the pending list changes exactly when some request on it has both |
| MgmtRequestAnswers.OtherControllerWaits | library/libvbt/mgmt.c:185-198 | of two replies with one opcode the one of the response's controller is answered, though it was written later |
| MgmtRequestAnswers.CallQueues | library/libvbt/mgmt.c:486-581 | an accepted call queues one request at the end of its own queue, with the call's opcode, controller and callback; a call without an opcode, or with a length but no parameters, changes nothing |
| MgmtRequestAnswers.WatchedAfterTurnIff | library/libvbt/mgmt.c:124-166 | after its turn the writer stays watched exactly if it tried a write that failed |
| MgmtRequestAnswers.WriterRests | library/libvbt/mgmt.c:124-166 | without further calls the watch ends after one turn more than there are requests queued, whichever writes fail |
| MgmtClient.Mgmt.WakeupWriter | library/libvbt/mgmt.c:169-183 | the object arms the watch unless something is pending and no reply is queued |
| MgmtClient.Mgmt.Send | library/libvbt/mgmt.c:529-554 | the object performs the send step and returns the id, or 0 for a refused call |
| MgmtClient.Mgmt.SendReply | library/libvbt/mgmt.c:556-581 | the object performs the reply step and returns the id, or 0 for a refused call |
| MgmtClient.Mgmt.CanWriteData | library/libvbt/mgmt.c:125-167 | the watch callback performs the write step, and keeps the watch exactly when the step does |
| MgmtClient.Mgmt.LookupPending | library/libvbt/mgmt.c:185-198 | the first pending request with both the opcode and the controller |
| MgmtClient.Mgmt.RequestComplete | library/libvbt/mgmt.c:200-224 | the object performs the response step |
| MgmtClient.Mgmt.Cancel | library/libvbt/mgmt.c:583-622 | the object performs the cancel step over its three lists, and reports whether the id was found |
| MgmtClient.Mgmt.CancelIndex | library/libvbt/mgmt.c:624-674 | the object performs the controller cancel step, without waking the writer |
| MgmtClient.Mgmt.CancelAll | library/libvbt/mgmt.c:676-692 | the object performs the cancel-all step |
| MgmtClient.Mgmt.DispatchWriter | library/libvbt/mgmt.c:118-167 | the main loop runs the callback of an armed watch once, and the watch is gone when the callback does not keep it |
| MgmtNotifyLaws.RunInv | library/libvbt/mgmt.c:226-260 | over any run registrations, deferred removals and the log stay in balance, entry by entry |
| MgmtNotifyLaws.FreedExactlyOnce | library/libvbt/mgmt.c:226-260 | between dispatches every registration is live and never freed, or was removed once and freed once |
| MgmtNotifyLaws.NeverCalledAfterRemoval | library/libvbt/mgmt.c:226-252 | over any run no callback of an entry runs after the entry was unregistered, even in the middle of a dispatch |
| MgmtNotifyLaws.NothingFreedWhileDispatching | library/libvbt/mgmt.c:226-260 | while a dispatch runs, whatever the callbacks do, nothing is freed; the deferred entries are all freed in order at its end |
| MgmtNotifyOrder.DispatchOutcome | library/libvbt/mgmt.c:226-260 | in any reachable state and for any behaviour of the callbacks, a dispatch calls only interested entries, in registration order, each at most once; of the entries still registered it has called exactly the interested ones, up to the entry, if any, whose own callback removed it; and there is none exactly when every op of every callback met its guard |
| MgmtNotifyOrder.DeadEnd | library/libvbt/mgmt.c:233-252 | a dispatch that stands on an entry moved to the deferred list calls nobody any more |
| MgmtNotifyOrder.SelfRemovalCutsShort | library/libvbt/mgmt.c:739-749 | an entry that unregisters itself keeps the next interested entry from being told |
| MgmtNotifyClient.NotifyList.Register | library/libvbt/mgmt.c:694-722 | the object performs the registration step and returns the id |
| MgmtNotifyClient.NotifyList.Unregister | library/libvbt/mgmt.c:724-752 | the object performs the unregistration step, deferred during a dispatch |
| MgmtNotifyClient.NotifyList.UnregisterIndex | library/libvbt/mgmt.c:754-784 | the object removes the entries of a controller one after the other |
| MgmtNotifyClient.NotifyList.UnregisterAll | library/libvbt/mgmt.c:786-810 | the object removes all entries |
| MgmtNotifyClient.NotifyList.ProcessNotify | library/libvbt/mgmt.c:226-260 | the object performs a whole dispatch, with callbacks that edit the list |
| MgmtNotifyOrder.CutIffOwnRemoval | library/libvbt/mgmt.c:233-252 | in the log, a call that leaves the dispatch on a removed node is one whose own ops log the removal of its entry |
| MgmtNotifyOrder.CutInLog | library/libvbt/mgmt.c:233-252 | the entry at which a dispatch is cut short is, in the log, the one whose removal follows its own call and precedes the next |
| MgmtNotifySpared.SparedDispatchIsFull | library/libvbt/mgmt.c:226-260 | in particular, if no callback asks for the removal of an interested entry, by id, by its controller or of all entries, the dispatch is not cut short and of the entries still registered exactly the interested ones were called |
| MgmtNotifyGuards.OpCutsIff | library/libvbt/mgmt.c:694-810 | an op takes the dispatch off the list exactly when it removes the entry the loop stands on, as told beforehand from the list: all entries, its controller, or an id it is the first to have |
| MgmtNotifyGuards.CallbackCutsIff | library/libvbt/mgmt.c:233-252 | a callback does so exactly when the guard of one of its ops fails |
| MgmtNotifyGuards.NamedCutsIff | library/libvbt/mgmt.c:233-252 | where no earlier entry has its id, a callback ends the dispatch exactly when one of its ops names its own entry, whatever else they do |
| MgmtNotifyOrder.CutIffUnguarded | library/libvbt/mgmt.c:226-260 | a dispatch is cut short exactly when the guard of some op of some callback fails |
| MgmtNotifyAudience.OnlyItsAudience | library/libvbt/mgmt.c:226-252 | whoever a dispatch calls, still registered or not, is registered for this event, with a callback, for this controller or for any (0xFFFF), and is told this controller |
| MgmtNotifyAudience.WholeAudience | library/libvbt/mgmt.c:226-252 | in a dispatch that is not cut short, of the entries still registered exactly those with this event, a callback, and this controller or 0xFFFF are called |
| MgmtNotifyAudience.OnlyTheFirst | library/libvbt/mgmt.c:233-252 | of three registrations, for any controller, for another event and for another controller, the first alone is called |
| MgmtNotifyAudience.RegistersIts | library/libvbt/mgmt.c:694-722 | a registration adds one entry at the end with its event, controller and callback, under the next id; one without an event is refused |
| CommandCreditLaws.OneAnswerIff | library/libvbt/btdev.c:1032-1881 | a command is answered by exactly one event, with one credit and its own opcode, except adding a synchronous connection where that is supported, which is not answered |
| CommandCreditLaws.CreditConservation | library/libvbt/bthost.c:345-472 | so with answered commands only, and while every start but the first finds the host with its credit, there is from the first start on, at every moment of any run, exactly one credit in host, commands in flight and events in flight together, and at most one command is outstanding |
| CommandCreditLaws.StartKeepsCreditsIff | library/libvbt/bthost.c:1094-1104 | a start keeps the number of credits exactly when the host holds one, since it sets one without taking back any other |
| CommandCreditLaws.ControllerKeepsCreditsIff | library/libvbt/btdev.c:573-634 | handling a command keeps the number of credits exactly when the command is answered |
| CommandCreditLaws.HostCommandsAnswered | library/libvbt/bthost.c:1055-1104 | every command the host itself sends is answered by every type of controller |
| CommandCreditLaws.OneFateAlways | library/libvbt/bthost.c:207-227 | over any run every command issued was sent once, is waiting, or was lost, and only one of these |
| CommandCreditLaws.NextLosesIff | library/libvbt/bthost.c:377-400 | looking at the queue loses waiting commands exactly when there is a credit and more than one waits |
| CommandCreditLaws.SendKeepsOrder | library/libvbt/bthost.c:345-375 | from a queue in the order issued, sending keeps that order exactly when no credit is left or none waits |
| CommandCreditLaws.NextKeepsOrder | library/libvbt/bthost.c:377-400 | looking at the queue never disturbs the order issued, however many wait; it can only lose commands |
| CommandCreditLaws.AddressQueryLost | library/libvbt/bthost.c:1079-1104 | enabling page scan right after the start loses the address query that was waiting |
| CommandHost.Bthost.SendCommand | library/libvbt/bthost.c:345-375 | the object performs the send step: out with a credit, or into the queue |
| CommandHost.Bthost.NextCmd | library/libvbt/bthost.c:377-400 | the object sends the tail of its queue and drops the entries before it |
| CommandHost.Bthost.EvtCmdComplete | library/libvbt/bthost.c:416-452 | the object takes the credits, runs the completion callback, and looks at its queue |
| CommandHost.Bthost.EvtCmdStatus | library/libvbt/bthost.c:454-472 | the same for a status event, whose callback runs for a failure only |
| CommandHost.Bthost.Start | library/libvbt/bthost.c:1094-1104 | the object performs the start step |
| CommandHost.Bthost.QueueCommand | library/libvbt/bthost.c:207-227 | a command is queued at the tail |
| CommandCreditLaws.SingleCreditAlwaysIff | library/libvbt/bthost.c:1094-1104 | over any run with no credit from outside, answered commands or not: there is a single credit throughout exactly when every start but the first found it with the host and every command handled was one the controller answers |
| CommandCreditLaws.OneStartIsGuarded | library/libvbt/bthost.c:1094-1104 | a run with one start is such a run |
| CommandCreditLaws.SendFifoIff | library/libvbt/bthost.c:345-375 | a send keeps the queue first in, first out exactly when it was so before and no credit is left or none waits |
| CommandCreditLaws.NextFifoIff | library/libvbt/bthost.c:377-400 | a look at the queue keeps it so exactly when it was so before and no credit is at hand or at most one command waits |
| CommandCreditLaws.FifoIff | library/libvbt/bthost.c:207-472 | after any run nothing was lost and nothing overtook another exactly when every send and every look at the queue on the way met its guard |
| CommandCreditLaws.CallbackOvertakes | library/libvbt/bthost.c:416-452 | a command sent from a completion callback overtakes the one that waits |
| CommandCreditLaws.SingleCreditStepIff | library/libvbt/bthost.c:345-472 | from a single credit an action leads to a single credit exactly when its guard holds |
| CommandTables.ShownIsKnownIff | library/libvbt/btdev.c:239-362 | a controller knows every command in the list it shows its host, except for the inquiry transmit power (classic) and the low energy host setting (low energy alone) |
| CommandTables.KnownButNotShown | library/libvbt/btdev.c:239-362 | the commands a controller knows without showing them, by type |
| CommandTables.KnownByTheOthers | library/libvbt/btdev.c:1032-1881 | a dual controller knows what either kind knows and four commands more, the third kind two commands more |
| CommandTables.StartedIffCompletes | library/libvbt/btdev.c:1883-1971 | a command is acknowledged by a status exactly when the second half of the handler completes it, with two exceptions |
| CommandTables.OneOfThree | library/libvbt/btdev.c:1032-1881 | a command is unknown, started or done, and only one of these, except for the one that is not answered |
| CommandTables.CommandsInOrder | library/libvbt/bthost.c:345-400 | commands reach the controller in the order the host sent them |
| CommandTables.EventsInOrder | library/libvbt/btdev.c:573-634 | events reach the host in the order they were sent |
| EirLaws.ParseOfFields | library/libvbt/eir.c:117-216 | a block of encoded fields means the fields applied one after the other, whatever follows |
| EirLaws.ParseIsApply | library/libvbt/eir.c:117-216 | every block of bytes is read as one list of fields with an unread rest, and no other list fits it |
| EirLaws.CollectExact | library/libvbt/eir.c:391-422 | the collecting pass keeps the first distinct candidates there is room for, and reports a cut exactly when a candidate is left over once the room is used up |
| EirLaws.DistinctMeaning | library/libvbt/eir.c:410-419 | the distinct candidates have no repetition and no omission |
| EirLaws.UncutIsComplete | library/libvbt/eir.c:391-422 | an uncut list names every candidate once, in the order of first occurrence |
| EirLaws.CutMayBeComplete | library/libvbt/eir.c:404-416 | a record whose block says its list of long services is cut although the list names every one of them |
| EirLaws.RoomIsExact | library/libvbt/eir.c:404-408 | the room computed is where the source's own size test starts to fail |
| EirLaws.BlockIsBounded | library/libvbt/eir.c:301-449 | the optional part is at most 240 bytes, the stored length is the length of the block, and every field length fits its byte |
| EirLaws.ListSizes | library/libvbt/eir.c:424-444 | how many bytes each service list takes, and that neither passes the limit |
| EirLaws.AllMeansAll | library/libvbt/eir.c:424-428 | a list of the kind that claims to be complete holds every eligible service of its type exactly once |
| EirLaws.List16RoundTrip | library/libvbt/eir.c:41-56 | a list of short identifiers is read back as written |
| EirLaws.List128RoundTrip | library/libvbt/eir.c:75-92 | a list of long identifiers is read back as given: the two reversals cancel |
| EirLaws.RoundTrip | library/libvbt/eir.c:117-449 | reading a generated block gives back address, class mod 2^24, hash, randomizer, first 48 name bytes with the right completeness, and the announced services in order, and touches nothing else |
| EirLaws.EmptyIff | library/libvbt/eir.c:301-449 | the optional part is empty exactly when nothing but the address is published |
| EirLaws.AcceptedIff | library/libvbt/eir.c:218-239 | a block is accepted exactly when it has at least eight bytes and its first two hold its length |
| EirLaws.AcceptedMeaning | library/libvbt/eir.c:218-239 | an accepted block is read field by field as far as eight bits of length reach, to its end for blocks of up to 263 bytes |
| EirCodec.EirRecord.ParseUuid16 | library/libvbt/eir.c:41-56 | the loop appends the short identifiers of a list |
| EirCodec.EirRecord.ParseUuid32 | library/libvbt/eir.c:58-73 | the loop appends the middle-sized identifiers of a list |
| EirCodec.EirRecord.ParseUuid128 | library/libvbt/eir.c:75-92 | the loop appends the long identifiers of a list, byte by byte reversed |
| EirCodec.EirRecord.ParseName | library/libvbt/eir.c:166-178 | the loop drops terminators from the end of a name |
| EirCodec.EirRecord.Parse | library/libvbt/eir.c:117-216 | the parser's loop over a buffer has the meaning of the block |
| EirCodec.EirRecord.ParseOob | library/libvbt/eir.c:218-239 | the out-of-band entry: rejected without effect, or read |
| EirCodec.CollectShorts | library/libvbt/eir.c:391-422 | the pass over the short services, into an array, is the declared collection |
| EirCodec.CollectFulls | library/libvbt/eir.c:255-289 | the pass over the long services, kept reversed in the output buffer itself, is the declared collection |
| EirCodec.GenerateUuid128 | library/libvbt/eir.c:243-299 | the long list is laid out behind the fields already written |
| EirCodec.CreateOob | library/libvbt/eir.c:301-449 | the generator writes exactly the block into the caller's buffer, nothing beside it, and returns its length |
| EirCodec.PutName | library/libvbt/eir.c:358-375 | the name field, cut to 48 bytes and then marked as short |
| EirCodec.PutFixed | library/libvbt/eir.c:320-389 | the fields before the service lists are laid out one behind the other, and nothing else is touched |
| EirCodec.PutShortList | library/libvbt/eir.c:424-437 | the short list is laid out if anything was kept |
| EirLaws.CutThoughCompleteIff | library/libvbt/eir.c:391-422 | a pass reports a cut although it kept every distinct candidate exactly when those just fill the room before the last candidate is reached |
| EirLaws.CutThoughCompleteMeaning | library/libvbt/eir.c:391-422 | the same in terms of the input: the distinct candidates fill the room exactly and the last one repeats another |
| EirLaws.LongListMissingIff | library/libvbt/eir.c:424-444 | there is no field for long services exactly when none is published or more than 238 bytes are used, which is so exactly when the distinct short services fill the room behind the other fields |
| EirLaws.ShortListMissingIff | library/libvbt/eir.c:391-437 | there is no field for short services exactly when none is eligible |
| EirLaws.LongServiceUnsaid | library/libvbt/eir.c:439-441 | a record with 119 short services and a long one, whose block says nothing of the long one |
| EirFields.KindsInOrder | library/libvbt/eir.c:320-444 | the generated block holds one field for each thing published, by its kind number, in a fixed order |
| EirFields.IdWritten | library/libvbt/eir.c:377-389 | the device identification is written exactly when there is a vendor, and its four words are source, vendor, product and version |
| EirFields.ClassOnly | library/libvbt/eir.c:301-341 | a whole block with a class alone, byte by byte |
| EirFields.SmallFieldsRead | library/libvbt/eir.c:117-216 | flags, transmit power, as a signed byte, and appearance are read from their kinds, if they are long enough |
| EirFields.MiddleServicesRead | library/libvbt/eir.c:58-73 | every whole four bytes of a list of either kind are read as one service, lowest byte first, and the rest is passed over |
| EirFields.PassedOver | library/libvbt/eir.c:117-216 | keys and a class that are too short, and fields of other kinds, are passed over |
| EirFields.NameRead | library/libvbt/eir.c:166-178 | a name loses its trailing zeros and is marked as whole or cut by its kind |
| EirFields.ShortServicesListed | library/libvbt/eir.c:392-414 | read back, the list of short services holds only published ones from 0x1100 on, without 0x1200, and all of these when its kind says so |
| EirFields.LongServicesListed | library/libvbt/eir.c:247-298 | read back, the list of long services holds only published ones, and all of them when its kind says so |
| BtdevConnections.SoundAlways | library/libvbt/btdev.c:148-176 | over any run of creations and destructions byte 2 of every live device's address is its slot |
| BtdevConnections.FindIsOwner | library/libvbt/btdev.c:178-188 | over any run looking up a live device's address gives that device, and no address leads to another |
| BtdevConnections.CreateOutcome | library/libvbt/btdev.c:433-495 | a new device takes the lowest free slot and an address naming it |
| BtdevConnections.CreateFull | library/libvbt/btdev.c:148-161 | creation does nothing exactly when no slot is free |
| BtdevConnections.SymmetricMeaning | library/libvbt/btdev.c:714-746 | the table is symmetric exactly when every connected device has a live peer, the two pointing at each other; then a points to b exactly when b points to a |
| BtdevConnections.SymmetricStepIff | library/libvbt/btdev.c:714-878 | from a symmetric table a step leads to a symmetric one exactly when its guard held: new connections join devices free for each other, and only unconnected devices are destroyed |
| BtdevConnections.SymmetricAlwaysIff | library/libvbt/btdev.c:433-505 | connections are symmetric at every moment of a run exactly when every step of it was guarded |
| BtdevConnections.ConnectBreaks | library/libvbt/btdev.c:714-746 | a third device connected to either end is left pointing in vain |
| BtdevConnections.DisconnectKeeps | library/libvbt/btdev.c:851-878 | disconnecting keeps symmetry |
| BtdevConnections.DestroyBreaks | library/libvbt/btdev.c:497-505 | destroying a connected device breaks symmetry |
| BtdevConnections.ThirdDeviceBreaks | library/libvbt/btdev.c:714-746 | a reachable run in which accepting an already connected device breaks symmetry |
| BtdevRendezvous.ScannersTold | library/libvbt/btdev.c:1002-1015 | switching advertising on sends exactly one report to every other scanning device, and none to others |
| BtdevRendezvous.AdvertisersTold | library/libvbt/btdev.c:1017-1030 | switching scanning on yields exactly one report about every other advertising device, and none about others |
| BtdevRendezvous.Rendezvous | library/libvbt/btdev.c:1740-1779 | in every reachable state, of two different live devices, one scanning and one advertising, the scanner has been sent exactly one report about the advertiser since the later of the two enabling commands |
| BtdevControllers.Controllers.AddBtdev | library/libvbt/btdev.c:148-161 | the loop takes the first free slot |
| BtdevControllers.Controllers.DelBtdev | library/libvbt/btdev.c:163-176 | the loop frees the slot of a device |
| BtdevControllers.Controllers.FindByBdaddr | library/libvbt/btdev.c:178-188 | the loop finds the first device with an address |
| BtdevControllers.Controllers.Create | library/libvbt/btdev.c:433-495 | the table performs the creation step |
| BtdevControllers.Controllers.ConnComplete | library/libvbt/btdev.c:714-746 | on success both ends are pointed at each other and both hosts told; on failure the caller's host alone is told |
| BtdevControllers.Controllers.LeConnRequest | library/libvbt/btdev.c:820-829 | a low energy connection is made exactly when the addressed device advertises |
| BtdevControllers.Controllers.DisconnectComplete | library/libvbt/btdev.c:851-878 | both ends are cleared and both hosts told the handle |
| BtdevControllers.Controllers.SetAdvEnableComplete | library/libvbt/btdev.c:1002-1015 | the loop over the slots reports to every other scanning device, in slot order |
| BtdevControllers.Controllers.SetScanEnableComplete | library/libvbt/btdev.c:1017-1030 | the loop over the slots reports every other advertising device, in slot order |
| BtdevControllers.Controllers.SetAdvEnable | library/libvbt/btdev.c:1740-1753 | the switch step, refused for an unchanged value and on a device without low energy |
| BtdevControllers.Controllers.SetScanEnable | library/libvbt/btdev.c:1765-1779 | the switch step, refused for an unchanged value and on a device without low energy |
| BtdevControllers.Controllers.ReceiveAcl | library/libvbt/btdev.c:2078-2082 | a connected device forwards the packet and returns a credit; an unconnected one does neither |
| BtdevControllers.Controllers.Destroy | library/libvbt/btdev.c:497-505 | the device's slot is freed |
| BtdevControllers.Controllers.AcceptConn | library/libvbt/btdev.c:1924-1929 | accepting joins the two devices, except on a low energy device |
| BtdevControllers.Controllers.NumCompletedPackets | library/libvbt/btdev.c:636-648 | one credit goes back exactly while connected |
| BtdevControllers.Controllers.RejectConn | library/libvbt/btdev.c:1931-1936 | rejecting reports the failure to the rejecting host alone and joins nothing |
| BtdevCalls.LowEnergyJoins | library/libvbt/btdev.c:820-829 | a device that can do low energy and asks for a live one that advertises is joined to it, nothing else changes, and both hosts are told of connection 42 |
| BtdevCalls.LowEnergyRefused | library/libvbt/btdev.c:820-829 | if no live device with the address advertises, nothing is joined and the caller's host alone is told, with 0x3e |
| BtdevCalls.LowEnergyIff | library/libvbt/btdev.c:820-829 | so the connection is made exactly when the device addressed is live and advertises |
| BtdevCalls.AcceptJoins | library/libvbt/btdev.c:1924-1929 | accepting joins the device to whichever live one has the address |
| BtdevCalls.RejectTells | library/libvbt/btdev.c:1931-1936 | rejecting changes no device and tells the own host alone, with 0x02 |
| BtdevCalls.HangupParts | library/libvbt/btdev.c:851-878 | hanging up clears both ends, changes nothing else, and tells both hosts the handle |
| BtdevCalls.SwitchSets | library/libvbt/btdev.c:1740-1779 | switching advertising or scanning sets that field of that device and no other, and does nothing when it is set so already or the device only does classic |
| BtdevCalls.NewDevice | library/libvbt/btdev.c:455-495 | a new device has its creator's number, its slot and three fixed bytes for an address, and is connected to nothing |
| AclPackets.AcceptedIff | library/libvbt/bthost.c:973-1000 | a packet passes exactly when its length is 4 plus the ACL length and 8 plus the L2CAP length, and its connection is known |
| AclPackets.SendThenProcess | library/libvbt/bthost.c:237-268 | what the host sends is taken apart into the same channel and payload, and the same handle as far as twelve bits reach |
| AclPackets.ProcessThenSend | library/libvbt/bthost.c:973-1000 | an accepted packet is byte for byte what sending its frame produces, up to the flag bits |
| AclPackets.SendInjective | library/libvbt/bthost.c:237-268 | different frames are never sent as the same packet |
| AclPackets.BuildAcl | library/libvbt/bthost.c:237-268 | the packet built in a buffer is the declared one |
| AclPackets.CheckAcl | library/libvbt/bthost.c:973-1000 | the checks in the source's order accept the same packets with the same contents |
| AclForwarding.CreditsConserved | library/libvbt/btdev.c:636-648 | over any run and for every device: packets taken while connected, packets forwarded and credits returned are the same number |
| AclForwarding.ArrivesInOrder | library/libvbt/btdev.c:2062-2087 | over any run what arrives from one device at another is what it took while connected to it, unchanged and in order |
| AclEndToEnd.EndToEnd | library/libvbt/bthost.c:237-268 | in particular while connections are symmetric |
| AclEndToEnd.HostsKnowHandle | library/libvbt/btdev.c:714-878 | in every reachable state the host of a connected device knows the connection's handle, and no host knows any other |
| AclEndToEnd.OneFrameArrives | library/libvbt/bthost.c:237-268 | a run in which two devices are connected and a frame, any the host can build, is sent and received |
| AclEndToEnd.EndToEndIff | library/libvbt/bthost.c:237-268 | host to host over any run, connections overwritten or not: the frames sent from one device to the one it was connected to are received, all of them, unchanged and in order, exactly when the receiving host knew the handle at each of them, and fewer otherwise |
| AclEndToEnd.OverwrittenStillArrives | library/libvbt/btdev.c:714-746 | after a third device was connected over one end of a connection the other end still reaches it, the handle being the same |
| AclEndToEnd.HungUpLost | library/libvbt/btdev.c:851-878 | once that end has hung up on the third device, a packet for it is still taken and forwarded, and not received |
| AclPackets.RelayedIff | library/libvbt/hciemu.c:103-165 | through the relay's 4096 byte buffers a frame comes out whole when its packet fits, and is turned away otherwise |
| AclPackets.PacketBytes | library/libvbt/bthost.c:237-268 | the packet sent, by its offsets: twelve bits of handle, two lengths, channel and payload |
| L2capRequests.PassSplits | library/libvbt/bthost.c:795-813 | a handling pass takes out exactly the requests with the identifier and runs their callbacks in list order; the others keep their order |
| L2capRequests.ValidAlways | library/libvbt/bthost.c:270-309 | over any run every registered request has the automatic identifier, which is always 1 |
| L2capRequests.FiresExactlyOnce | library/libvbt/bthost.c:311-343 | over the host's whole life every registered request has its callback run exactly once: with the code of the first well-formed signalling packet carrying its identifier, or with code 0 when the host is destroyed |
| L2capRequests.OneAnswerSettlesAll | library/libvbt/bthost.c:795-882 | one such packet settles every request outstanding |
| L2capHost.Bthost.DisconnComplete | library/libvbt/bthost.c:524-549 | the unlinking loop removes every connection with the handle and keeps the order of the rest |
| L2capHost.Bthost.L2capReq | library/libvbt/bthost.c:311-343 | a request is registered in front of the list, for a known connection and a given callback only |
| L2capHost.Bthost.HandlePendingL2reqs | library/libvbt/bthost.c:795-813 | the unlinking loop performs the handling pass |
| L2capHost.Bthost.ProcessAcl | library/libvbt/bthost.c:924-1014 | a data packet settles pending requests exactly when it is a well-formed signalling packet |
| L2capHost.Bthost.Destroy | library/libvbt/bthost.c:169-195 | destruction runs the remaining callbacks with code 0, in list order |
| L2capHost.Bthost.InitConn | library/libvbt/bthost.c:490-508 | a connection is added in front of the list |
| L2capRequests.SettledAlways | library/libvbt/bthost.c:795-882 | until it is answered a registered request is in the list exactly once and its callback has not run; afterwards it is gone and its callback has run once |
| L2capRequests.OneRequest | library/libvbt/bthost.c:311-343 | one request: answered by a reject its callback runs with code 1, by a connection response with code 3, unanswered with 0 |
| L2capRequests.SignalBytes | library/libvbt/bthost.c:815-882 | a signalling packet is one on a known connection, on channel 1 or 5, with all three lengths right; its code is the first byte of the payload and its identifier the second |
| L2capRequests.ReceiveByBytes | library/libvbt/bthost.c:795-882 | such a packet takes out exactly the requests with its identifier and runs their callbacks with its code, in list order; any other packet does nothing |
| L2capRequests.SentSignalAnswers | library/libvbt/bthost.c:237-268 | whatever a host sends on a signalling channel with code, identifier and length of the rest in front is such a packet |
| L2capRequests.KnownIff | library/libvbt/bthost.c:490-549 | over any run the host knows a connection exactly when the last word on its handle was that it came up |
| L2capRequests.AskRegisters | library/libvbt/bthost.c:311-343 | a request is registered, in front and with identifier 1, exactly when its connection is known and it has a callback |
| WaveLaws.SeekPasses | library/libalsa/libap.c:1206-1223 | chunks in front of the wanted one are passed over, whatever they hold |
| WaveLaws.PlayFile | library/libalsa/libap.c:1178-1377 | any well-formed chunk sequence, of either byte order, is played as its format chunk says, from the data body onward |
| WaveLaws.BytesPerSample | library/libalsa/libap.c:1278-1306 | with the frame size cut to sixteen bits, the bytes per sample come out too small for any format |
| WaveLaws.HeaderRoundTrip | library/libalsa/libap.c:2848-2917 | the player reads back format, channels, rate, byte count and samples of a recording of any of the six formats, except that it gives up on 24 bit recordings whose frame size does not fit sixteen bits |
| WaveLaws.RecordingPlaysBack | library/libalsa/libap.c:2848-2917 | so every recording with up to 256 channels plays back as recorded |
| WavePlayer.Player.SafeRead | library/libalsa/libap.c:1115-1130 | short reads do not show: all bytes asked for, or all there are; a failed read shows as an error or as too few bytes |
| WavePlayer.Player.Require | library/libalsa/libap.c:1153-1162 | the buffer is filled up to the size asked for exactly when the input is long enough and no read failed |
| WavePlayer.Player.SeekChunk | library/libalsa/libap.c:1349-1374 | the loop that reads and shifts the buffer finds what the search on the whole input finds, unless a read failed |
| WavePlayer.Player.ReadFormat | library/libalsa/libap.c:1225-1347 | the format chunk is taken over exactly when it could be read and makes sense |
| WavePlayer.Player.TestWavefile | library/libalsa/libap.c:1178-1377 | a failed read ends the parser; otherwise, however many bytes were loaded beforehand, the outcome is that of the whole file, and what is left in the buffer followed by what is still unread is the data body |
| WavePlayer.BeginWave | library/libalsa/libap.c:2848-2917 | the header is written in its four parts, or refused for a format WAVE files cannot hold |
| WaveFormats.FormatTable | library/libalsa/libap.c:1275-1307 | which code, bits, valid bits and bytes per sample stand for which sample format, in either byte order |
| WaveFormats.PlainRead | library/libalsa/libap.c:1225-1347 | a plain format chunk of either byte order is understood when it is PCM or floating point and has a channel; its bytes per second do not matter |
| WaveFormats.ExtensibleRead | library/libalsa/libap.c:1225-1347 | an extensible one is understood as the code in its extension says, unless its valid bits, of which eight count, exceed its bits |
| WaveFormats.HeaderBytes | library/libalsa/libap.c:2848-2917 | the chunk identifiers and lengths of the recorder's header, by their offsets |
| WaveFormats.HeaderFormat | library/libalsa/libap.c:2848-2917 | the format numbers of the recorder's header, by their offsets, bytes per second included |
| WaveFormats.Recordable | library/libalsa/libap.c:2848-2917 | the six formats a recording can have |
| WaveFormats.NotUnderstood | library/libalsa/libap.c:1225-1258 | extensible chunks that are too short or carry another identifier, and plain ones that are too short, are not understood |
| WaveFormats.WaveIff | library/libalsa/libap.c:1187-1199 | twelve bytes tell a WAVE file from others, and the fourth its byte order |
| WaveFormats.FileCount | library/libalsa/libap.c:1348-1372 | the declared length of the data replaces the byte count exactly if it is smaller and below 0x7ffffffe |
| ChannelMap.MapFits | library/libalsa/libap.c:1479-1502 | whenever a map is found, hardware channel m[ch] has the position requested for channel ch |
| ChannelMap.MapFoundIff | library/libalsa/libap.c:1479-1502 | with distinct positions requested, a map is found exactly when the hardware has them all |
| ChannelMap.MapPermutes | library/libalsa/libap.c:1479-1502 | in particular with distinct positions requested |
| ChannelMap.RepeatedPositionCollides | library/libalsa/libap.c:1479-1502 | a request on which both channels share one hardware channel |
| ChannelMap.RearrangeBack | library/libalsa/libap.c:2260-2271 | rearranging a frame is undone by the inverse map, on either side |
| ChannelMap.RearrangeKeepsSamples | library/libalsa/libap.c:2260-2271 | no sample of a frame is lost or doubled |
| ChannelMap.ReachesItsPositionIff | library/libalsa/libap.c:2260-2271 | for every map found, in terms of the map: every sample ends up at a hardware channel of its position exactly when going through the map twice leads back to the same position; with distinct positions, exactly when the map undoes itself |
| ChannelMap.ShiftedSpeakersMiss | library/libalsa/libap.c:2260-2271 | with three speakers shifted round, which do not swap in pairs, every sample ends up at a wrong one |
| ChannelRemap.SamplesOfJoin | library/libalsa/libap.c:2260-2271 | cutting a frame laid out sample by sample gives the samples back |
| ChannelRemap.RemapBack | library/libalsa/libap.c:2237-2271 | a whole buffer rearranged by a permutation comes back under the inverse map, byte for byte |
| ChannelRemap.SetupChmap | library/libalsa/libap.c:1440-1504 | the nested loops find the declared map, or the reason there is none; requested channels beyond the driver's map keep zero |
| ChannelRemap.RemapData | library/libalsa/libap.c:2237-2271 | the nested copying loops rearrange every frame of the buffer as declared |
| ChannelMap.MapPermutesIff | library/libalsa/libap.c:1479-1502 | for any positions, repeated or not, the map found is a permutation exactly when, at every channel that already fits, no more channels before it ask for its position than places before it offer it |
| ChannelMap.PermutationIffKeepsOff | library/libalsa/libap.c:1479-1502 | two channels share a hardware channel exactly when one that had to move took the place of one that fits |
| ChannelMap.MapGreedy | library/libalsa/libap.c:1479-1502 | a channel that fits its place keeps it; any other takes the first place of its position that no channel before it took |
| ChannelMap.OnlyPermutationsKeepSamples | library/libalsa/libap.c:2260-2271 | the frame 0, 1, 2, ... keeps its samples exactly under a permutation, so no other map keeps those of every frame |
| ChannelRemap.SetupUndone | library/libalsa/libap.c:1440-2271 | when that condition holds of the two position lists, whole buffers rearranged by the map the set-up found come back under its inverse |
| ChannelMapGuards.AnyMapFoundIff | library/libalsa/libap.c:1479-1502 | for any positions, repeated or not, a map is found exactly when, by counting, every channel that has to move still finds a place |
| ChannelMapGuards.MovesToItsRank | library/libalsa/libap.c:1479-1502 | in a map that is a permutation a channel that has to move goes to the place of its rank |
| ChannelMapGuards.ReachesIff | library/libalsa/libap.c:2260-2271 | for any request for which a map is found, read off the two position lists: every sample ends up at a hardware channel of its position exactly when the map is a permutation and the channels that have to move trade places |
| ChannelMapGuards.DistinctReachesIff | library/libalsa/libap.c:2260-2271 | with distinct positions, exactly when the channels swap places in pairs |
| ChannelRemap.SetupOutcome | library/libalsa/libap.c:1440-1504 | setting up has nothing to do, fails, or finds a map, and it fails exactly when the number of channels differs or some channel that has to move finds no place |
| ChannelRemap.SetupPlaces | library/libalsa/libap.c:1476-1502 | each of the driver's channels is sent to a place of its position, and the rest to place 0 |
| SoundSegments.SegmentShapes | library/libalsa/detection.c:210-298 | every segment is one to twenty-two voiced chunks and an unvoiced one, or exactly twenty-three voiced ones |
| SoundSegments.VoicedChunksKept | library/libalsa/detection.c:210-298 | every voiced chunk of a stream is in exactly one segment or in the open one, in its order |
| SoundSegments.MachineFindsSegments | library/libalsa/detection.c:91-307 | for any stream, fed chunk by chunk, the machine hands out exactly the declared segments, and its buffer holds the open one |
| SoundSegments.FeedRoomy | library/libalsa/detection.c:210-298 | the buffer always has room for one more chunk of the largest size, and a finished length is always plausible |
| SoundDetection.SoundStruct.Create | library/libalsa/detection.c:91-307 | the object performs one step of the machine, in a buffer of fixed size |
| SoundDetection.SoundStruct.NewLine | library/libalsa/detection.c:263-298 | closing a segment, whose correction of the length is never needed |
| SoundDetection.SoundStruct.Empty | library/libalsa/detection.c:378-392 | a fresh start drops what was collected |
| SoundDetection.Detect | library/libalsa/detection.c:393-431 | one call of the detector: a new segmenter on the first call or for a beginning, a fresh start or neither, then one step; the result tells whether a segment is ready |
| CaseRunner.SingleStepIff | library/libvbt/libl2cap.c:305-580 | from a state with one continuation a step leads to one with one continuation exactly when its report was owed |
| CaseRunner.OneContinuation | library/libvbt/libl2cap.c:334-400 | over any disciplined run there is exactly one continuation until the loop quits; cases run in list order, and the loop quits exactly when the last one is done |
| CaseRunner.TeardownIffRun | library/libvbt/libl2cap.c:305-400 | of a finished case every stage function was called at most once, and the teardown exactly if the test itself was run |
| CaseRunner.StagesAdvance | library/libvbt/libl2cap.c:305-580 | no case ever goes back a stage |
| CaseRunner.StepsLead | library/libvbt/libl2cap.c:334-580 | every disciplined step that does anything brings the end closer, so the runner cannot go on for ever |
| CaseRunner.NeverStuck | library/libvbt/libl2cap.c:334-580 | until the end there is always a step that does something |
| CaseRunner.UnrulyDoubles | library/libvbt/libl2cap.c:402-580 | a report that is not owed but counts leaves two continuations |
| CaseRunner.DoubleReportDoubles | library/libvbt/libl2cap.c:402-415 | a run in which reporting twice leaves two callbacks for one case |
| CaseLoop.Runner.NextCase | library/libvbt/libl2cap.c:334-364 | the object moves on to the next case or quits |
| CaseLoop.Runner.RunIdle | library/libvbt/libl2cap.c:305-400 | the object runs the callback at the head of the idle queue |
| CaseLoop.Runner.PreSetupFailed | library/libvbt/libl2cap.c:417-432 | a failed pre-setup passes through the setup stage to the end of the case |
| CaseLoop.Runner.ReportVerdict | library/libvbt/libl2cap.c:468-512 | passing and failing set the verdict and lead to the teardown |
| CaseLoop.Runner.TeardownFailed | library/libvbt/libl2cap.c:531-546 | a failed teardown passes through the last stage to the end of the case |
| CaseLoop.Runner.PreSetupComplete | library/libvbt/libl2cap.c:402-415 | a report that counts schedules the setup |
| CaseLoop.Runner.SetupComplete | library/libvbt/libl2cap.c:434-449 | a report that counts schedules the test |
| CaseLoop.Runner.SetupFailed | library/libvbt/libl2cap.c:451-466 | a report that counts schedules the end of the case |
| CaseLoop.Runner.TeardownComplete | library/libvbt/libl2cap.c:514-529 | a report that counts calls the last stage function at once |
| CaseLoop.Runner.PostTeardownDone | library/libvbt/libl2cap.c:548-580 | a report that counts schedules the end of the case |
| CaseLoop.Runner.Start | library/libvbt/libl2cap.c:582-589 | the first case begins |
| CaseRunner.VerdictIffRun | library/libvbt/libl2cap.c:468-512 | a finished case has a verdict exactly if its test was run |
| CaseRunner.OneThroughoutIff | library/libvbt/libl2cap.c:305-580 | a run has exactly one continuation at every moment, until it quits, exactly when every report that counts was owed |
| CaseRunner.VerdictIsReported | library/libvbt/libl2cap.c:468-512 | over any run, disciplined or not, a case has the verdict, passed or failed, that its test last reported while it was under way |
| SlotPool.DroppedIff | module/cor0/init.c:220-246 | an offer is turned away exactly when no slot is empty and some slot carries its code, and then nothing changes |
| SlotPool.Conserved | module/cor0/init.c:220-317 | over any run what was stored is what is held together with what was fetched |
| SlotPool.FetchedOnce | module/cor0/init.c:266-317 | over any run every item fetched had been stored, none is fetched twice, and none is both fetched and held |
| SlotPool.SizeIsPeak | module/cor0/init.c:149-218 | over any run the pool is exactly as large as the most it ever had to hold |
| SlotPool.SlotStack.Find | module/cor0/init.c:63-98 | the search loop succeeds exactly when some slot is empty or carries the code |
| SlotPool.SlotStack.SetEmpty | module/cor0/init.c:100-146 | the loop fills the first empty slot |
| SlotPool.SlotStack.Append | module/cor0/init.c:149-218 | a new slot is added at the end and counted |
| SlotPool.SlotStack.Offer | module/cor0/init.c:220-264 | the object performs the update step |
| SlotPool.SlotStack.Fetch | module/cor0/init.c:266-317 | the object hands out the contents of the first filled slot and empties it |

## Left out

- MgmtRequestLaws.NeverStalls: stated for runs without hangup and without cancelling a whole controller, because the law can fail there; `NeverStallsIff` says exactly for which runs it holds.
- MgmtRequestLaws.CancelDestroysNamed: stated for an id that no other live request has; ids can be shared once the 32 bit counter has wrapped, exactly as `SameIdIff` says.
- CommandCreditLaws.CreditConservation: stated for starts that find the credit at hand and for commands the controller answers; `SingleCreditAlwaysIff` and `ControllerKeepsCreditsIff` say what happens otherwise.
- EirLaws.RoundTrip: the name comes back as bytes; the repair of names that are not valid UTF-8, which leaves ASCII names alone, is not modelled, and services come back as values, not as printed strings.
- AclPackets.SendThenProcess: payloads above 65526 bytes, whose packet length does not fit sixteen bits, are not modelled.
- L2capRequests.FiresExactlyOnce: callbacks that call back into the host are not modelled.
- WaveLaws.HeaderRoundTrip: stated for 1 to 65535 channels, the range of the header's field; the command line allows 256.
- ChannelRemap.SetupChmap: a driver that reports a map with more channels than it was asked for is not modelled.
- AclEndToEnd.EndToEndIff: the packets are those the controllers receive; the relay in between cuts packets above 4096 bytes, and `AclPackets.RelayedIff` says what then becomes of them.
- AclEndToEnd.OneFrameArrives: for the same reason a frame of more than 4087 bytes, which the model receives, does not come through the relay.
- AclEndToEnd.EndToEnd: stated while connections are symmetric; `EndToEndIff` is the exact statement.
- MgmtNotifySpared.SparedDispatchIsFull: sufficient only; `MgmtNotifyOrder.CutIffUnguarded` is exact.
- ChannelMap.MapFoundIff: stated for distinct positions; `ChannelMapGuards.AnyMapFoundIff` is for any.
- L2capHost.Bthost.ProcessAcl: the channel bookkeeping and the replies of the signalling handlers are not modelled; they do not touch the pending requests.
- WavePlayer.Player.SafeRead: an abort requested by a signal, which also ends its loop, is not modelled.
- BtdevConnections.SymmetricAlwaysIff: calls on which the source follows a missing or stale pointer (accepting an unknown address, disconnecting an unconnected device, a peer already destroyed) are not taken.
- CaseRunner.OneContinuation: stated with timeouts off; a timer schedules a teardown of its own.
- BtdevControllers.Controllers.Create: devices are records in their slots and a pointer to one is its serial number, so memory that was freed cannot be reached at all.
- Linked lists (the management queues, the notification list, the host's connections and requests, the slot pool) are sequences edited in place; a node pointer held across edits, as in the dispatch loop, is a cursor that the edits move.
- Allocation failures, printing and hex dumps.
- Input and output: the file descriptors, sockets and the main loop are steps of an environment that arms, writes, fails, hangs up or delivers.
- The management client's read side (splitting received packets into events) and its reference counting.
- Hooks of the emulated controllers; none is installed, since a hook can suppress an answer.
- The payloads of the controllers' answers, and inquiry, name and feature requests: many easy cases of one kind.
- The other audio formats (VOC, AU, raw) and the playback loop around the parser.
- The numerical test that calls a chunk voiced: its outcome is an input.
- The slot pool's file dump.
- Kernel drivers, D-Bus, udev, HCI and RFCOMM command wrappers, configuration files, the message digest pool and the cipher library: plumbing over libraries not shown, or easy claims only.
