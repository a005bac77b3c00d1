# B3: wire protocols and state machines, verified

B3 (Big Brother Bot) moderates game servers. It talks to them over hand-written wire protocols, loads plugins in
dependency order, and keeps a few small state machines. This project models that logic in Dafny and proves what each part
is for. Where the repository ships the other end of a protocol as a fake server, both ends are modelled and the
theorems are about the two together.

- **Frostbite** (`FrostbiteCodec`, `FrostbiteSession`, `FrostbiteClient`, `FrostbiteRuns`, `FrostbiteEvents`,
  `FrostbiteReplies`, `FrostbiteMaps`): words inside packets inside a TCP stream that carries replies and pushed events at
  once; over every run no decoded event packet is lost, repeated or left unacknowledged, every command comes to exactly what
  the packets still to come say and, within 2^30 commands, none gets another's reply. An event is handed over once for each
  copy the server sent of it. The map change is proved against the server's rotation.
- **BattlEye** (`BattleyeCodec`, `BattleyeSession`, `BattleyeClient`, `BattleyeRuns`, `BattleyeDelivery`, `BattleyeSplit`,
  `BattleyeReplies`, `BattleyeBans`): UDP with acknowledgement and resending; exactly-once delivery over a lossy link and
  exactly the timing it needs, split replies in any order, whose reply a command returns, and lifting a ban on a server
  that renumbers its list.
- **Plugins** (`PluginOrder`, `PluginLoad`): the least dependency order, the greatest circular set, and the enabled set as
  a least fixed point.
- **A2S** (`A2S`, `A2SClient`): fragments out of order, a header on fragment zero only, and checks on a decompressed reply.
- **Ravaged and Homefront** (`Ravaged`, `Homefront`, over `Framing` and `Pumping`): length-prefixed streams, both ends,
  for every way TCP may cut them up.
- **The event bus and the ready-up** (`EventBus`, `ReadyUp`): `drain` against every event loop, and the traces of a
  countdown.
- **Cron fields, versions and Steam ids** (`Cron`, `Version`, `SteamId`): what the texts denote, and printing and reading
  back.

Code that changes things step by step is a class or a loop, proved to do what a function on values says; the theorems
about whole runs are lemmas about those functions. Sockets are scripts: each receive gives the next entry, so that a claim
about every script is a claim about every peer and every timing. Clock values are arguments. bzip2, the checksums and the
event loop are functions of which only what a theorem requires is known.

Some things hold of the code that its documentation does not say, and are kept as they are.

- An A2S datagram longer than the 2800 bytes the client asks for is taken without its tail and, when the reply is not
  compressed, without an error (`A2S.CutUnnoticed`; exactly when, `A2S.PlainReply`).
- The numbers of A2S fragments are never compared with the number announced. As many different ones as announced are taken
  for all of them, and without a fragment zero a decompressed reply is checked against nothing (`A2S.StraysUnchecked`;
  exactly when, `A2S.OnlyVouched` and `A2S.CheckedExactly`).
- An unsplit BattlEye reply that happens to start with the marker byte of a part is taken for one
  (`BattleyeSplit.ReplyMistaken`; exactly when, `BattleyeSplit.WholeReplyCommand`).
- A config file that is there and does not parse stops the plugin loader even for a plugin that is switched off, although
  the loader means it not to (`PluginLoad.OffStillBreaks`; exactly when, `PluginLoad.OffPluginsFile`).
- Compressed A2S data that ends early raises a `ValueError`, which the query does not turn into its own error
  (`A2S.OnlyCutOffEscapes`; for a reply the server split, exactly when, `A2S.CutReplyEscapes`).
- A BattlEye reply that is 256 numbered sends late is taken for another command's (`BattleyeReplies.LateReplyTaken`; exactly
  when, `BattleyeReplies.OnlyMine`).
- A Frostbite event that the server resends before its acknowledgement arrives is handed over again
  (`FrostbiteEvents.QueuedTwice`; exactly when, `FrostbiteEvents.EventsHandedOver`).
- Lifting a BattlEye ban that is only on the saved list answers that it is gone, and a restart brings it back
  (`BattleyeBans.LiftThenRestart`).
- A Steam id or a version with a number of more than 4300 digits raises, Python's `int` refusing it
  (`SteamId.RaisesExactly`, `Version.WrittenRead`); so the check for an update, which promises never to, can raise too
  (`Version.OfferedExactly`).

Several claims hold only under a condition, which is then stated and shown to be exact: exactly-once delivery, the map
changes, the split replies, both kinds of A2S reply, the frames of Ravaged and Homefront, the 64-bit Steam id.

## Model

| member | source | states |
|---|---|---|
| FrostbiteCodec.EncodeWords | src/b3/net/frostbite.py:142-147 | succeeds exactly when every word length fits its 32-bit field, and then gives length, bytes and NUL for each word |
| FrostbiteCodec.Encode | src/b3/net/frostbite.py:150-160 | succeeds exactly when the whole packet fits its own 32-bit size field, and then gives its wire form |
| FrostbiteCodec.DecodeWords | src/b3/net/frostbite.py:177-196 | the offset loop reads exactly the words a truncation-tolerant reader finds |
| FrostbiteCodec.CodecRoundTrip | src/b3/net/frostbite.py:142-196 | for all words, 30-bit numbers and both flags, decoding an encoded packet gives the same packet |
| FrostbiteCodec.LengthExact | src/b3/net/frostbite.py:163-174 | the length of an encoded packet followed by anything is known, and is unknown on every proper prefix |
| FrostbiteCodec.ReadPacketStable | src/b3/net/frostbite.py:585-613 | more bytes behind a packet never change what is read off the front of the buffer |
| FrostbiteCodec.StreamRoundTrip | src/b3/net/frostbite.py:585-613 | any packets sent back to back are read back the same, in order, for every way of cutting the stream |
| FrostbiteCodec.HeaderInBytes | src/b3/net/frostbite.py:150-160 | a header byte by byte: number with both flags, size and word count, low bytes first |
| FrostbiteCodec.WordsInBytes | src/b3/net/frostbite.py:142-147 | words byte by byte: length, bytes, NUL |
| FrostbiteClient.Client.Receive | src/b3/net/frostbite.py:585-613 | the object receives what the session specification receives |
| FrostbiteClient.Client.HandleServerPacket | src/b3/net/frostbite.py:627-635 | acknowledge an event first, then queue its words: the specification step the run theorems are about |
| FrostbiteClient.Client.AwaitReply | src/b3/net/frostbite.py:571-583 | the receive loop does what the specification does, 64 packets at most |
| FrostbiteClient.Client.CommandWords | src/b3/net/frostbite.py:562-583 | a fresh number, the command on the wire and the wait for its reply, as in the specification |
| FrostbiteClient.Client.FlushOutbox | src/b3/net/frostbite.py:650-668 | releases queued chat as the specification does, stopping where it stops |
| FrostbiteClient.Client.Drain | src/b3/net/frostbite.py:615-625 | takes everything already waiting, as in the specification |
| FrostbiteClient.Client.Command | src/b3/net/frostbite.py:379-434 | chat first, then the command, as in the specification |
| FrostbiteClient.Client.Write | src/b3/net/frostbite.py:392-405 | queues the line and releases what is due, as in the specification |
| FrostbiteClient.Client.ReadLines | src/b3/net/frostbite.py:361-375 | drain, flush, keepalive and probe, then hand over the queue, as in the specification |
| FrostbiteRuns.RunInv | src/b3/net/frostbite.py:361-668 | every interleaving of commands, writes and reads keeps the session invariant |
| FrostbiteRuns.SessionConservation | src/b3/net/frostbite.py:562-635 | the lines that reads returned plus the lines queued are exactly the word lists of the server packets decoded, in order, each once; acknowledgements sent are exactly one OK per event, with its number |
| FrostbiteRuns.StreamConservation | src/b3/net/frostbite.py:585-635 | when the socket brings whole packets, however cut up: the decoded ones are a prefix of them, and once all bytes are in, every packet was returned by a read, is queued or is still in the buffer |
| FrostbiteRuns.RunTakes | src/b3/net/frostbite.py:585-613 | over every run no byte is lost between socket and buffer, and the chat accounted for is the chat written |
| FrostbiteRuns.RunReturns | src/b3/net/frostbite.py:361-375 | over every run the lines accounted for are the lines its reads returned |
| FrostbiteReplies.ReceiveExactly | src/b3/net/frostbite.py:585-613 | a receive gives the first of the packets spelled by the buffer and the bytes still to come, and leaves the others; with none to come it fails exactly when the stream is out of step or the socket breaks |
| FrostbiteReplies.CommandWordsExactly | src/b3/net/frostbite.py:562-583 | for every reply, error or success: a command comes to it exactly when the packets still to come do so, by the first response with its number among the first 64, or for want of one |
| FrostbiteReplies.CommandReads | src/b3/net/frostbite.py:562-583 | it reads no packet beyond that response, and what it did not read is still to come |
| FrostbiteReplies.CommandExactly | src/b3/net/frostbite.py:379-416 | `command` comes to what the chat flushed before it failed with, or else to that |
| FrostbiteReplies.CommandLogs | src/b3/net/frostbite.py:562-570 | a command is sent once, and nothing else but acknowledgements |
| FrostbiteReplies.FlushExactly | src/b3/net/frostbite.py:650-668 | a flush takes lines off the front of the queue, sends each that has words once, and fails exactly when one was neither answered nor refused, with its failure |
| FrostbiteReplies.FlushReleases | src/b3/net/frostbite.py:650-668 | unpaced it empties the queue; paced it releases the first line exactly when that is due |
| FrostbiteReplies.DrainExactly | src/b3/net/frostbite.py:615-625 | draining takes every packet that can be received, and fails exactly when a stream out of step, an error or a hang-up stops it |
| FrostbiteReplies.ReadExactly | src/b3/net/frostbite.py:361-375 | a read keeps the session exactly when nothing received was out of step or broken off and the chat due, the keepalive and the probe were each answered or refused; it sends those when they are due and hands over the whole queue exactly when all went well up to the probe |
| FrostbiteReplies.FirstCommandAnswered | src/b3/net/frostbite.py:379-390 | end to end: on a session just opened, with the server packets cut into any chunks, the first command gives the words behind the OK of the first response numbered 0 |
| FrostbiteRuns.ReplyIsMine | src/b3/net/frostbite.py:562-583 | a reply that is returned is a response carrying the number just sent, and within 2^30 commands no earlier command had that number |
| FrostbiteRuns.NumbersDistinct | src/b3/net/frostbite.py:562-570 | below the wrap no two commands share a number |
| FrostbiteRuns.ChatBeforeCommand | src/b3/net/frostbite.py:379-405 | every line written before a command that goes out is on the wire ahead of it |
| FrostbiteRuns.ChatPacing | src/b3/net/frostbite.py:650-668 | the chat written over a run is released in that order, each line once, and a paced release comes at least the interval after the one before it |
| FrostbiteEvents.Server.PushEvent | tools/fakeservers/frostbite.py:152-159 | an event is sent, and pending under its number modulo 2^30 |
| FrostbiteEvents.Server.HandleAck | tools/fakeservers/frostbite.py:211-216 | an acknowledgement drops exactly the pending events of its number |
| FrostbiteEvents.Server.ResendUnacked | tools/fakeservers/frostbite.py:359-364 | one pass sends every pending event that has waited long enough once, in order, and restamps it |
| FrostbiteEvents.CopiesSent | tools/fakeservers/frostbite.py:152-159 | over every run an event is sent once when pushed and once more for each pass that finds it unacknowledged for too long |
| FrostbiteEvents.SentApart | tools/fakeservers/frostbite.py:359-364 | an event is sent again no sooner than the resend interval after the copy before |
| FrostbiteEvents.AnswersSent | tools/fakeservers/frostbite.py:211-221 | on the stream stand the answers, in order and once each, as responses, and the events as requests of the server |
| FrostbiteEvents.AckedStops | tools/fakeservers/frostbite.py:211-216 | once the acknowledgement of an event has arrived it is never sent again: every copy but the first went out before |
| FrostbiteEvents.EventsHandedOver | src/b3/net/frostbite.py:585-635 | against that server, once all it sent has been received: the lines returned by reads, queued and still in the buffer are those of the events copy by copy, each event with words once and once more for every time it was resent |
| FrostbiteEvents.QueuedTwice | src/b3/net/frostbite.py:627-635 | an event resent before anything comes back is handed over twice |
| FrostbiteMaps.ChangeMapFrostbite2 | src/b3/net/frostbite.py:461-541 | the change works exactly when an entry is being played, a mode is there and the rounds are a positive number of at most 4300 digits; then the named map is played one slot on, and without it the rotation is the old one |
| FrostbiteMaps.ChangeMapFrostbite1 | src/b3/net/frostbite.py:461-511 | the change works exactly when the next slot is not past the end; then the named map is played there, and without it the rotation is the old one |
| FrostbiteMaps.PlayNow | src/b3/net/frostbite.py:461-541 | from any well-formed non-empty rotation, both generations play the named map and leave a well-formed rotation |
| FrostbiteMaps.AnswerWellFormed | tools/fakeservers/frostbite.py:253-357 | every request with whatever arguments leaves a well-formed rotation well-formed, except exactly the other generation's insert when it is granted |
| FrostbiteMaps.AddPlaces | tools/fakeservers/frostbite.py:322-337 | an entry is added exactly when there are a name, a mode and a positive number of rounds, at the index given or the end, the rest staying as it is |
| FrostbiteMaps.PlayNowAfter | src/b3/net/frostbite.py:461-541 | so playing a map works after any requests in the generation's own verbs |
| FrostbiteMaps.PointAndPlay | tools/fakeservers/frostbite.py:253-264 | pointing at an entry and ending the round plays it, and past the end is refused |
| FrostbiteMaps.CurrentSettings | src/b3/net/frostbite.py:513-541 | the mode and rounds read back from the list reply are those of the entry being played |
| FrostbiteMaps.GetMaps | src/b3/net/frostbite.py:436-459 | terminates against any server, and gives what its pages add up to, or the exception of a page head with a number of more than 4300 digits |
| FrostbiteMaps.GetMapsComplete | src/b3/net/frostbite.py:436-459 | for every page size the whole rotation is returned when it has at most 1000 entries, and everything up to the first page boundary past that otherwise |
| FrostbiteMaps.AnyRowLength | src/b3/net/frostbite.py:221-238 | the row length of a list is read, not assumed: whatever it is, the first word of every row comes back |
| FrostbiteMaps.GetMapsFlat | src/b3/net/frostbite.py:221-238 | a bare list of names is read back exactly when no name is empty and the first two do not look like a table header; reading raises exactly when they do and one has more than 4300 digits |
| FrostbiteMaps.Server.Handle | tools/fakeservers/frostbite.py:253-357 | the rotation server answers each verb, errors included, and changes its list and indices as the specification says; a number too long to read gets no reply |
| FrostbiteMaps.ChangeMapOn | src/b3/net/frostbite.py:461-492 | the client talking to the server object brings it to the specified rotation |
| BattleyeCodec.CodecRoundTrip | src/b3/net/battleye.py:136-160 | a framed packet with a sequence byte is read back as it was, for every checksum; one without exactly when it has content |
| BattleyeCodec.DecodeExact | src/b3/net/battleye.py:147-160 | only a framed packet is accepted: what is decoded, framed again, is the datagram |
| BattleyeCodec.DatagramBytes | src/b3/net/battleye.py:131-145 | a datagram byte by byte |
| BattleyeClient.Client.HandleMessage | src/b3/net/battleye.py:491-503 | acknowledge always, queue unless the pair is among the sixteen last taken, as in the specification |
| BattleyeClient.Client.Assemble | src/b3/net/battleye.py:505-516 | stores a part and joins them when as many as announced are there, as in the specification |
| BattleyeClient.Client.FlushOutbox | src/b3/net/battleye.py:518-524 | releases queued chat as in the specification |
| BattleyeClient.Client.Command | src/b3/net/battleye.py:346-372 | chat first, then the command and at most 64 receives, as in the specification |
| BattleyeClient.Client.Write | src/b3/net/battleye.py:427-437 | queues the line and releases what is due, as in the specification |
| BattleyeClient.Client.Drain | src/b3/net/battleye.py:479-489 | takes every datagram already waiting, as in the specification |
| BattleyeClient.Client.ReadLines | src/b3/net/battleye.py:266-291 | drain, flush, keepalive and probe, then hand over the queue, as in the specification |
| BattleyeRuns.RunInv | src/b3/net/battleye.py:266-524 | every interleaving of commands, writes and reads keeps the session invariant |
| BattleyeRuns.MessagesKept | src/b3/net/battleye.py:491-503 | over every run: the lines its reads returned plus the lines queued are the texts of the messages taken as new among the datagrams received so far, in order, each once; every message received was acknowledged once for each time |
| BattleyeRuns.RunHeard | src/b3/net/battleye.py:346-372 | in a command, a write or a read, every message received is handled, in order and as often as it arrived, and nothing else |
| BattleyeRuns.DrainHeard | src/b3/net/battleye.py:479-489 | draining takes every datagram up to the first silence |
| BattleyeRuns.RunAccount | src/b3/net/battleye.py:266-291 | over every run the lines accounted for are those its reads returned, and while the connection lasts the chat accounted for is the chat written |
| BattleyeRuns.ChatPacing | src/b3/net/battleye.py:427-437 | while the connection lasts the chat written over a run leaves in that order, each line once, and a paced release comes at least the interval after the one before it |
| BattleyeRuns.ChatBeforeCommand | src/b3/net/battleye.py:346-356 | all chat written before a command is on the wire ahead of it |
| BattleyeReplies.ReplyExactly | src/b3/net/battleye.py:346-372 | a command returns a reply exactly when some first datagrams, at most 64 and all intact, have it put together by those among them that carry the number just sent, from nothing else and from no parts kept from before |
| BattleyeReplies.AssembledFrom | src/b3/net/battleye.py:505-516 | such a reply is one of those datagrams as it is, or the join of parts each cut from one of them, as many as announced |
| BattleyeReplies.RunNumbered | src/b3/net/battleye.py:446-448 | in every run commands, chat and keepalives are numbered one after the other, modulo 256 |
| BattleyeReplies.NumberIsMine | src/b3/net/battleye.py:346-372 | in every run another numbered send had a command's number exactly when it was a multiple of 256 sends earlier |
| BattleyeReplies.OnlyMine | src/b3/net/battleye.py:363-364 | of the replies that arrive a command takes exactly those to sends a multiple of 256 earlier, so only its own when none is 256 late |
| BattleyeReplies.LateReplyTaken | src/b3/net/battleye.py:446-448 | after 256 commands that timed out, the late reply to the first is returned for the next |
| BattleyeReplies.FlushSends | src/b3/net/battleye.py:518-524 | a flush sends the front of the queue once each and nothing else: all of it unpaced, and paced the first line exactly when it is due |
| BattleyeReplies.CommandSends | src/b3/net/battleye.py:346-356 | a command sends all the queued chat and then itself, once |
| BattleyeReplies.ReadExactly | src/b3/net/battleye.py:266-291 | a read sends the chat due, a keepalive when due, and when probing the rest of the chat and the probe; it hands over the whole queue; the session is lost, and its chat dropped, exactly when there is a probe that what arrives behind the first silence does not answer |
| BattleyeReplies.LostDoesNothing | src/b3/net/battleye.py:427-445 | a lost session stays as it is: a read gives nothing, a command fails and chat is not taken |
| BattleyeDelivery.Server.Push | tools/fakeservers/battleye.py:119-134 | a pushed message is sent, and pending under the low byte of its number |
| BattleyeDelivery.Server.HandleAck | tools/fakeservers/battleye.py:171-173 | an acknowledgement drops exactly the pending messages with its byte |
| BattleyeDelivery.PushedCanArrive | tools/fakeservers/battleye.py:119-134 | a message can arrive from the moment it is pushed, and be sent again while it is pending |
| BattleyeDelivery.ExactlyOnce | tools/fakeservers/battleye.py:119-134 | over any run of client, resending server and a lossy, repeating, reordering link whose every step is safe: each message that arrives is delivered exactly once in order of first arrival, and one that is no longer pending has been taken |
| BattleyeDelivery.RunExactly | src/b3/net/battleye.py:491-503 | a run stays right, nothing delivered twice, swallowed or given up on, exactly when every step of it is safe |
| BattleyeDelivery.TimelySafe | src/b3/net/battleye.py:209-209 | no repeat from further back than sixteen and nothing outliving a wrap makes a step safe |
| BattleyeDelivery.ExactlyOnceInTime | tools/fakeservers/battleye.py:266-272 | and so exactly once over any run that keeps to that timing |
| BattleyeDelivery.SessionExactlyOnce | src/b3/net/battleye.py:266-372 | the same of a whole session over what its reads returned, whether it was in a command, a write or a read when each message reached it |
| BattleyeDelivery.TakenIffNotSeen | src/b3/net/battleye.py:491-503 | short of a wrap, what the client does with an arrival is right exactly when it is no repeat from further back than sixteen |
| BattleyeDelivery.RightExactly | src/b3/net/battleye.py:491-503 | with no timing at all: an arrival is treated rightly exactly when a repeat has, and a new message has not, a message of its byte and text among the sixteen taken last |
| BattleyeDelivery.AckedExactly | tools/fakeservers/battleye.py:171-173 | an acknowledgement loses nothing exactly when no message of its byte is still to arrive |
| BattleyeDelivery.AckedCovers | tools/fakeservers/battleye.py:266-272 | short of a wrap that is so |
| BattleyeDelivery.LateAckLoses | tools/fakeservers/battleye.py:171-173 | a run in which the acknowledgement of a message outlives a wrap, and the server gives up on another that has not arrived |
| BattleyeDelivery.LateRepeatTwice | src/b3/net/battleye.py:209-209 | a repeat after sixteen others is delivered again: the timing is needed |
| BattleyeDelivery.WrapSwallows | src/b3/net/battleye.py:491-503 | the 257th message of one text is swallowed when only the first arrived before it: the wrap condition is needed too |
| BattleyeSplit.SplitExact | tools/fakeservers/battleye.py:202-209 | a reply can be sent exactly when 255 parts are enough for it |
| BattleyeSplit.SplitReplyWhole | src/b3/net/battleye.py:346-372 | the parts in any order, with repeats, pushed messages and foreign replies between them, give back exactly the body; the messages met are handled in order |
| BattleyeSplit.SplitReplyNeedsAll | src/b3/net/battleye.py:505-516 | while a part is missing the command times out instead |
| BattleyeSplit.MetOnTheWay | src/b3/net/battleye.py:491-503 | the messages met on the way are owed to the parser as ever |
| BattleyeSplit.WholeReplyExact | src/b3/net/battleye.py:505-516 | the assembling step gives an unsplit reply back exactly when it is too short for a part header or does not start with its marker byte |
| BattleyeSplit.WholeReply | src/b3/net/battleye.py:346-372 | such a reply comes back from the command, pushed messages and foreign replies between, and the messages met are handled in order |
| BattleyeSplit.WholeReplyCommand | src/b3/net/battleye.py:346-372 | of everything a command may receive, an unsplit reply any number of times among other things: it is given back exactly when it does not look like a part |
| BattleyeSplit.ReplyMistaken | src/b3/net/battleye.py:505-516 | the four bytes 0, 1, 0, 65, sent unsplit, come back as the last alone |
| BattleyeBans.RemoveBan | src/b3/net/battleye.py:374-425 | leaves exactly the old GUID list without the rows for the id, order kept, IP bans untouched; saves it when anything was removed; true unless the id is blank |
| BattleyeBans.HighestFirst | src/b3/net/battleye.py:402-404 | against the renumbering server, highest row first removes exactly the matching rows |
| BattleyeBans.LowestFirstLiftsAStranger | src/b3/net/battleye.py:402-404 | lowest row first would lift the ban of somebody else and keep one |
| BattleyeBans.MatchingIsPositions | tools/fakeservers/battleye.py:216-221 | the rows matched in a reply are where the id stands on the GUID list, whatever the IP list holds |
| BattleyeBans.Server.RemoveBan | tools/fakeservers/battleye.py:223-231 | removing a row renumbers the rest |
| BattleyeBans.Server.Restart | tools/fakeservers/battleye.py:262-264 | a restart brings back the saved list |
| BattleyeBans.LiftThenRestart | src/b3/net/battleye.py:374-425 | after lifting a ban and a restart the id has no row exactly when it had one on the list in memory or none on the saved list; otherwise "gone" was answered and a saved row comes back |
| PluginOrder.OrderNames | src/b3/core/pluginmgr.py:116-152 | for every dictionary order: the lexicographically least order, by config rank, that puts every configured dependency first; or, exactly when some non-empty set of plugins each depends on another of it, the greatest such set by rank |
| PluginOrder.LoadOrderExactly | src/b3/core/pluginmgr.py:116-134 | a load order is: every configured plugin once, behind every configured plugin it requires or is to be loaded after |
| PluginOrder.CircularExactly | src/b3/core/pluginmgr.py:149-152 | circular is: some plugins each of which must stand behind another of them |
| PluginOrder.PlaceOne | src/b3/core/pluginmgr.py:135-147 | one turn of the loop keeps its invariant: what is placed is greedy, what is ready is sorted and has no dependency left |
| PluginOrder.GreedyIsLeast | src/b3/core/pluginmgr.py:116-152 | always placing the ready plugin of lowest rank gives the least of all load orders |
| PluginOrder.LeastOrderUnique | src/b3/core/pluginmgr.py:116-152 | the least order is unique |
| PluginOrder.HeldNeverPlaced | src/b3/core/pluginmgr.py:116-152 | no member of a set that waits for itself is ever placed |
| PluginLoad.LoadPlugins | src/b3/core/pluginmgr.py:155-220 | the whole of loading, for classes that import, check and construct without raising: least order, exactly the least set of enabled plugins, the final reason for each, or an exception whose cause is there: a name listed twice, a requirement of a plugin that is not configured, the greatest circle, a plugin that should run whose config file is missing or wrong, a config file of any plugin that is there and cannot be read |
| PluginLoad.LoadsExactly | src/b3/core/pluginmgr.py:155-220 | loading succeeds exactly when no name is listed twice, every requirement is configured, there is no circle, the config file of every plugin that should run is in order, and no config file that is there is unreadable |
| PluginLoad.OffPluginsFile | src/b3/core/pluginmgr.py:189-199 | the config file of a plugin that should not run makes no difference to loading, exactly unless it is there and cannot be read; then nothing loads |
| PluginLoad.OffStillBreaks | src/b3/core/pluginmgr.py:103-113 | a plugin switched off, alone in the config, stops the loader over a file that does not parse and not over one that is missing |
| PluginLoad.DecideEnabled | src/b3/core/pluginmgr.py:179-235 | deciding one plugin at a time in any load order gives the least set that is closed under "willing and all requirements enabled" |
| PluginLoad.ReasonFinal | src/b3/core/pluginmgr.py:223-235 | the reason given when a plugin is reached is the one that holds in the end |
| PluginLoad.ReasonsMean | src/b3/core/pluginmgr.py:223-235 | the reason given is "disabled" exactly when switched off, else the wrong game exactly when that is not supported, else the requirements that do not run, exactly those and in the order listed, else none |
| PluginLoad.EnabledSetUnique | src/b3/core/pluginmgr.py:179-235 | that set is unique |
| PluginLoad.EnabledTransitively | src/b3/core/pluginmgr.py:223-235 | along any chain of requirements from an enabled plugin everything is enabled |
| PluginLoad.ConfigOrderIrrelevant | src/b3/core/pluginmgr.py:155-220 | two configs listing the same plugins in different orders both load or both fail, and enable the same plugins |
| A2SClient.SplitQueryReply | tools/fakeservers/source.py:479-512 | the loop builds the fragments of the specification; none when a field cannot hold its value |
| A2S.SplitExact | tools/fakeservers/source.py:479-512 | a reply goes whole when it fits, and otherwise can be sent exactly when 255 pieces are enough and the limit and the stated length fit their fields |
| A2S.FragmentBytes | tools/fakeservers/source.py:503-511 | a fragment byte by byte |
| A2S.IdBitExactly | src/b3/net/a2s.py:390-391 | an id says compressed exactly when its top bit is set, signed or not |
| A2S.DatagramRead | src/b3/net/a2s.py:378-389 | what a datagram is, by its bytes: whole, a fragment with its four fields, too short or neither |
| A2SClient.Reader.Take | src/b3/net/a2s.py:100-105 | the next bytes, or an error that moves nothing |
| A2SClient.Reader.Long | src/b3/net/a2s.py:126-127 | the signed 32-bit number at the reader |
| A2SClient.Partial.Store | src/b3/net/a2s.py:402-408 | a fragment kept under its number, length and checksum read off fragment zero alone |
| A2SClient.Assemble | src/b3/net/a2s.py:410-416 | all parts joined by number, decompressed, checked, and behind its header |
| A2SClient.ReceiveReply | src/b3/net/a2s.py:360-417 | the receive loop gives what the specification gives, errors included, with the reader behind the header |
| A2SClient.Unpack | src/b3/net/a2s.py:419-448 | refuses a reply that is not bzip2 or is of another length or checksum than stated; data that ends early raises past the handler |
| A2S.ParseFragment | tools/fakeservers/source.py:510-511 | the client reads off a fragment what the server put on it, short of what the receive limit cut off |
| A2S.ReceiveFragments | src/b3/net/a2s.py:360-417 | whatever the order and the repeats, the outcome is that of having all fragments |
| A2S.PlainReply | src/b3/net/a2s.py:360-417 | an uncompressed reply comes back as it was exactly when every datagram fits the receive; one that does not is taken, cut, without an error |
| A2S.CompressedReply | src/b3/net/a2s.py:360-448 | a compressed reply comes back as it was exactly when it went whole and fits the receive, or went in fragments, its length is one a signed 32-bit field can state and what arrives of the pieces decompresses to it; of one in fragments nothing is given out that differs in length or in a checksum other than 0 |
| A2S.CompressedReplyFits | src/b3/net/a2s.py:360-448 | when every datagram fits the receive the length alone decides |
| A2S.CutReplyEscapes | src/b3/net/a2s.py:430-435 | of a split compressed reply something else than the query's own error is raised exactly when what arrives of the pieces ends early, which takes a datagram that does not fit |
| A2S.OnlyCutOffEscapes | src/b3/net/a2s.py:360-448 | for every input that takes as many different fragments of a compressed reply as announced, making data that ends early |
| A2S.CutUnnoticed | src/b3/net/a2s.py:366-378 | 6000 bytes in fragments of 3000 are taken for the reply without the 424 that were cut off |
| A2S.OnlyVouched | src/b3/net/a2s.py:360-448 | for every input a reply is given out only if it came whole, or is what as many different fragments as announced make and, when decompressed, agrees with every non-zero length and unsigned checksum that fragment zero states; and those are all its fragments exactly when no number is too high |
| A2S.CheckedExactly | src/b3/net/a2s.py:419-448 | a decompressed reply is given out exactly when it agrees with what fragment zero states, and checked against anything only if there is a fragment zero |
| A2S.StraysUnchecked | src/b3/net/a2s.py:380-416 | fragments numbered 1 and 2 of two are taken for the whole, and what they decompress to is given out unchecked |
| Bytes.MaskRecovers | src/b3/net/a2s.py:404-407 | a signed read masked with 0xFFFFFFFF is the unsigned checksum |
| A2SClient.Ask | src/b3/net/a2s.py:331-351 | the retry loop gives what the specification gives, and the challenges it sent |
| A2SClient.ChallengesAnswered | src/b3/net/a2s.py:331-351 | a server that hands out challenges gets each back, once, in order, and its answer is taken exactly when there were fewer of them than attempts, whatever arrives later |
| A2SClient.ChallengesThen | src/b3/net/a2s.py:331-351 | whatever follows some challenges, short of another, ends the asking: the reply wanted or the error for any other |
| A2SClient.AskChallenger | src/b3/net/a2s.py:331-351 | so with the three attempts of the client: two challenges at most |
| Framing.ChunkingIrrelevant | src/b3/net/frostbite.py:585-613 | for every stable frame reader, how a stream was cut makes no difference to what is read |
| Ravaged.ParseShow | src/b3/net/ravaged.py:122-125 | `int` of a printed length is the length |
| Ravaged.ParseIntExactly | src/b3/net/ravaged.py:122-125 | a header is read as white space, one sign and digits with single underscores, and refused otherwise |
| Ravaged.ReadFrameStable | src/b3/net/ravaged.py:107-132 | more bytes behind a frame, or behind a bad header, change nothing |
| Ravaged.FrameRead | tools/fakeservers/ravaged.py:175-184 | a frame behind any junk without a bracket gives back its payload exactly when that is at most 1000000 bytes, and is refused otherwise |
| Ravaged.FrameWaits | src/b3/net/ravaged.py:107-132 | every proper prefix of a frame, junk included, waits for more |
| Ravaged.PayloadsDelivered | src/b3/net/ravaged.py:316-342 | any payloads, junk between them, cut into any chunks with timeouts between: repeated pumps yield exactly those payloads in order |
| Pumping.Client.PumpOnce | src/b3/net/ravaged.py:316-342 | the pump loop does what the specification does: at most 32 reads, stopping early when it has something, closing on a bad frame |
| Pumping.Client.TakeFrames | src/b3/net/ravaged.py:331-341 | the inner loop takes exactly the whole frames off the buffer |
| Pumping.PumpTimesConserve | src/b3/net/ravaged.py:316-342 | however often the client pumps, it has given exactly the frames in the bytes read so far |
| Pumping.PumpConserves | src/b3/net/ravaged.py:316-342 | one pump: exactly the frames of the bytes it read; it stops after 32 reads, at a read without data, at a stream out of step or, eager, once it has something, and no sooner; connected exactly while nothing failed |
| Pumping.AllDelivered | src/b3/net/ravaged.py:316-342 | for every stable reader: pumping until nothing is left gives exactly the payloads sent |
| Homefront.FrameRead | src/b3/net/homefront.py:101-124 | a frame read with the header it was written with gives back its packet exactly when the data is at most 1000000 bytes, and is refused otherwise |
| Homefront.FrameBytes | src/b3/net/homefront.py:101-104 | a frame byte by byte, the length high byte first |
| Homefront.FrameWaits | src/b3/net/homefront.py:107-124 | every proper prefix of a frame waits for more |
| Homefront.ReadersStable | src/b3/net/homefront.py:107-124 | both readers are stable |
| Homefront.Client.PumpLines | src/b3/net/homefront.py:290-329 | the lines of the packets read, login verdict and version kept up to date; a stream that goes out of step is closed and the bot logged out |
| Homefront.LinesPicked | src/b3/net/homefront.py:310-329 | the lines of a batch are the channel and data of exactly the packets that are neither PONG nor, on the server channel, a verdict or a greeting, in order |
| Homefront.LastWordCounts | src/b3/net/homefront.py:315-329 | the bot is logged in exactly when the last verdict says so, and knows the version of the last greeting |
| Homefront.LinesDelivered | src/b3/net/homefront.py:290-329 | whatever the server sends, cut into any chunks: exactly the lines for the parser come out, in order, each once, and the last verdict and greeting are heeded |
| Homefront.Server.Handle | tools/fakeservers/homefront.py:256-268 | counts pings, stops on a disconnect, records unknown types as malformed and keeps the data of transmissions |
| Homefront.Server.Consume | tools/fakeservers/homefront.py:239-254 | every whole frame in the buffer handled, the rest kept; the front of what can be no frame recorded and the buffer dropped |
| Homefront.Server.Serve | tools/fakeservers/homefront.py:217-234 | the receive loop, ended by a disconnect, a hang-up or a failing receive |
| Homefront.HandledMeans | tools/fakeservers/homefront.py:256-268 | having handled some packets is having the data of the transmissions in order, the number of pings, the unknown types, and a stop if there was a disconnect |
| Homefront.ServedInOrder | tools/fakeservers/homefront.py:217-254 | however the stream is cut, the packets it holds are handled in order up to its end, or up to some point behind a disconnect |
| Homefront.MessagesServed | tools/fakeservers/homefront.py:217-268 | everything the client sends is handled and nothing found malformed, for every way of cutting the stream, exactly when no packet is too long, all are of a type the server knows, and a disconnect is followed by nothing else |
| EventBus.Bus.PublishSoon | src/b3/core/bus.py:97-120 | a new task is tracked; off the loop nothing happens |
| EventBus.Bus.DropFinished | src/b3/core/bus.py:137-143 | the finished tasks are dropped from the tracked set, the others returned |
| EventBus.Bus.DrainAll | src/b3/core/bus.py:122-145 | terminates for every event loop, and then every task has finished and none is tracked |
| EventBus.RunInv | src/b3/core/bus.py:97-120 | whatever the loop runs, no unfinished task is untracked, and what can still happen never grows |
| EventBus.WaitProgress | src/b3/core/bus.py:137-145 | every wait uses up some of what can still happen, callbacks apart |
| EventBus.DrainFinishesAll | src/b3/core/bus.py:122-145 | when drain returns every task ever published has finished, those published while it waited included |
| EventBus.DrainAfterAnything | src/b3/core/bus.py:97-145 | and so after any run of the loop before it |
| EventBus.FinishedStaysTracked | src/b3/core/bus.py:125-134 | a finished task stays tracked until its callback runs, so waiting for the tracked set to empty could wait for ever |
| EventBus.TrackedExactly | src/b3/core/bus.py:97-120 | what is tracked is unfinished or has its callback still to run; once all have run, exactly the unfinished |
| EventBus.CallbackOnce | src/b3/core/bus.py:97-120 | a callback runs once |
| EventBus.LegalLoopExists | src/b3/core/bus.py:122-145 | event loops as required exist |
| ReadyUp.Match.BeginMatch | src/b3/core/matchmode.py:106-111 | nobody ready, no countdown, first pass due after the nag time |
| ReadyUp.Match.CancelMatch | src/b3/core/matchmode.py:113-118 | everything off |
| ReadyUp.Match.ToggleReady | src/b3/core/matchmode.py:120-132 | flips one player as the specification does; refused once counting |
| ReadyUp.Match.Pass | src/b3/core/matchmode.py:134-148 | a pass announces and moves on as the specification does, reading the clock twice |
| ReadyUp.Match.CountDown | src/b3/core/matchmode.py:150-157 | the next number, or START and off |
| ReadyUp.RunInv | src/b3/core/matchmode.py:106-157 | in every run the announcements since the last begin are waiting, then READY, then the numbers so far, each a step after the one before |
| ReadyUp.StartTrace | src/b3/core/matchmode.py:134-157 | a START ends: waiting, one READY with somebody there and all of them ready, every number from the top to 1; readiness unchanged since READY; and at least (countdown_from + 1) steps after READY |
| ReadyUp.FrozenWhileCounting | src/b3/core/matchmode.py:120-132 | while counting no toggle changes anything, and readiness is what it was at READY |
| ReadyUp.ReadyExactly | src/b3/core/matchmode.py:120-132 | in every run, while others are waited for, a player is ready exactly after an odd number of toggles since the begin, and listed once; the answer is that, or none exactly when nobody is waited for, and nobody else changes |
| ReadyUp.PassExactly | src/b3/core/matchmode.py:134-157 | in every run a pass announces exactly when a ready-up was begun, neither called off nor finished, and the nag time or a step has gone by since the last announcement; and then exactly the next one |
| ReadyUp.NamedInOrder | src/b3/core/matchmode.py:101-103 | those waited for are named in the order they are there |
| ReadyUp.BeginToStart | src/b3/core/matchmode.py:106-157 | begin, one toggle by each player and passes that are due lead to READY, the countdown and START |
| ReadyUp.ReadyToStart | src/b3/core/matchmode.py:134-157 | with everybody ready, as many due passes as it takes announce READY, the whole countdown and START, and nothing else |
| Cron.ParseField | src/b3/core/scheduler.py:51-67 | accepts and rejects as specified, and gives the union of what the fragments mean |
| Cron.Values | src/b3/core/scheduler.py:79-97 | a stepped range is the values from its first to its last that are a multiple of the step away |
| Cron.FormParses | src/b3/core/scheduler.py:70-108 | each form, `*`, `N` or `a-b`, with or without a step, is taken exactly when its numbers are in range and in order and the step is not 0, and means what it should |
| Cron.AcceptedDenotes | src/b3/core/scheduler.py:51-97 | every accepted text denotes some value, and values of the field's range only |
| Cron.FieldsOccur | src/b3/core/scheduler.py:37-45 | the values a field may have are exactly those a clock or a calendar shows |
| Cron.PrintedReadsBack | src/b3/core/scheduler.py:153-159 | parsing what is printed gives back the field exactly when it is "every" or a non-empty set |
| Version.WrittenRead | src/b3/core/plugininstall.py:119-152 | the key of any written version is its padded numbers, its stage and its ordinal, however it is punctuated; reading raises exactly when one of the first four numbers or the ordinal has more than 4300 digits |
| Version.TrailingZeros | src/b3/core/plugininstall.py:122-152 | zeros left off the end make no difference |
| Version.AroundTheRelease | src/b3/core/plugininstall.py:86-161 | for the same numbers, exactly the marked versions that are no post-releases sort below the plain one, and exactly the post-releases above, for all ordinals; comparing raises exactly when a number is too long |
| Version.AmongTheMarked | src/b3/core/plugininstall.py:86-161 | for the same numbers marked versions go by dev or unknown, alpha, beta, candidate, post, then by ordinal; comparing raises exactly when a number is too long |
| Version.FirstDifference | src/b3/core/plugininstall.py:113-161 | the first of four numbers that differs decides, whatever follows |
| Version.NoVersion | src/b3/core/plugininstall.py:133-144 | a text that is no version counts as a release of the first four numbers found in it |
| Version.RunsRead | src/b3/core/plugininstall.py:141-144 | those numbers are the runs of digits, whatever stands between them |
| Version.NotLessTransitive | src/b3/core/plugininstall.py:160-161 | the order is a total preorder |
| Version.ResolveRef | src/b3/core/plugininstall.py:250-264 | the ref asked for, or the first tag that no other exceeds; none without tags; it raises exactly when there is something to compare and a tag cannot be read |
| Version.DropVKeepsKey | src/b3/core/selfupdate.py:141-144 | the release named without its v is read as before |
| Version.ReleaseExactly | src/b3/core/selfupdate.py:59-59 | a release tag is exactly numbers with single dots between them, behind a v or not |
| Version.OfferedExactly | src/b3/core/selfupdate.py:95-144 | an update is offered exactly when some release tag exceeds the running version; asking raises exactly when there is a release and it, another or the running version cannot be read |
| SteamId.LegacyReadBack | src/b3/core/steamid.py:56-87 | every account from 0 that has a legacy spelling is read back from it; it has none exactly when half of it has more than 4300 digits |
| SteamId.UniverseIgnored | src/b3/core/steamid.py:36-66 | a legacy spelling is read in any case and for any universe from 0 to 5; another universe or low bit makes it no Steam id |
| SteamId.ModernReadBack | src/b3/core/steamid.py:49-72 | every account is read back from its modern spelling, unless that has more than 4300 digits, which raises |
| SteamId.RaisesExactly | src/b3/core/steamid.py:56-102 | canonicalising raises exactly for an id with more digits than `int` takes: nothing that is read is too long to write |
| SteamId.Steam64ReadBack | src/b3/core/steamid.py:90-92 | the 64-bit spelling is read back exactly for accounts from 1 up to the last of seventeen digits |
| SteamId.CanonicalOnce | src/b3/core/steamid.py:95-102 | canonicalising twice is canonicalising once, for every string it does not raise for |
| SteamId.SameAccount | src/b3/core/steamid.py:95-102 | two recognised spellings both come out, and come out the same exactly when they name one account |
| SteamId.LeftAlone | src/b3/core/steamid.py:95-102 | a string is left alone exactly when it is no Steam id or already the legacy spelling |
| Strings.StripExactly | src/b3/net/battleye.py:499-501 | stripping takes exactly the white space off both ends |

## Left out

- Logging in and reconnecting: a session that is lost stays lost, and its back-off is not modelled.
- Failing sends: what the client sends is recorded, and a send does not fail while the connection lasts.
- Whether silence lasted too long or a keepalive is due: the clock's decision, an input of `ReadLines`.
- UTF-8, JSON, MD5, SHA-1, CRC32 and bzip2: text is the bytes it is made of, a line handed to the parser stands for its
  JSON, and checksums and compression are arbitrary functions, the latter lossless where a theorem says so.
- The sessions record outgoing packets as values, not bytes; the codecs are proved apart from them.
- `shlex.split` behind Frostbite commands: a command is its list of words. A chat line without words is never sent.
- `parse_bans`: the rows of a `bans` reply are taken as read.
- The BattlEye link is the set of all datagrams ever sent, from which any may arrive at any time; how long one lives is
  bounded by the timing that `BattleyeDelivery.ExactlyOnce` requires.
- Bit operations on header words and ids are written as arithmetic on their values.
- Ravaged's `command` and `read_lines`: payloads behind a reply in the same batch are dropped there, so only the framing is
  claimed.
- Homefront's pings by the clock, and what its server does on a transmission: checking the password, answering commands.
- The fields of the A2S replies behind their headers, and an A2S receive that fails rather than times out: both end in the
  same error.
- Event handlers and their order, vetoes and errors: a published event is a task that finishes at some time.
- That a plugin's module can be imported, and that its class checks a config and is constructed without raising; whether
  its config file is there and can be read, and whether the check finds problems, are inputs of the loader.
- A rotation or an index beyond `sys.maxsize`, which no list reaches. A request whose handling raises gets no reply, but
  the fake server's thread, which ends with it, is taken to answer later ones.
- `CronSpec.matches` and the scheduler's own loop; a cron field is proved by itself.
- Digits and letters other than ASCII ones, which some of the patterns would also accept.
- Configured tokens, caches and remotes of the update check: its tags are an input.
- Frontline, Altitude, the command registry, storage, the importer, the wizard and all user interface.
