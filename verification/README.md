# Remote monitoring: a verified model of its protocol, store and server

The system collects metrics snapshots on client machines and ships them over TCP to a server,
where an administrator can read the latest snapshot of a node and send commands to all clients.
This project models the parts whose correctness is not visible from reading one function, and
proves what they guarantee over every input and every run.

**Store and forward** (`OutboxProtocol`, `OutboxOrder`, `OutboxTheorems`, `Draining`). The client
keeps every snapshot in a persistent outbox, sends only the oldest one, erases by id on ACK and
then sends the next; the server inserts and always acknowledges. Both ends are one state machine
with disconnects, client restarts, stale server sessions that still hold unread lines, lost and
unusable ACKs, and a parameter `h`: how many times `onAckReceived` runs for one ACK. As wired,
`h` is 2, because the slot is connected in `SyncService` and again in the client's `main`. For every
`h` and every run the server's log without repeats is a prefix of what was collected, an ACK erases
the head or nothing, and every item is still stored, or a row of the metrics table, or had its
inserts throw. While connected and collecting nothing, every interleaving of the client and all
sessions ends after exactly the same number of steps, given by a closed recurrence.

**The byte stream** (`Protocol`, `Lines`, `ClientChannels`, `LineReader`, `WriteQueue`,
`EndToEndStream`). One specification of line splitting; the client's drain-all loop and the
server's one-line-per-completion reader both meet it under any chunking, and the server's strand
with its outgoing deque writes frames in posting order in every interleaving. Together: what the
client emits is a prefix of what was sent, and all of it once the queue has drained.

**Payloads** (`JsonDecoder`, `JsonPrefixes`, `RawFields`, `PropertyTrees`, `MetricsPayload`, `MetricsJson`,
`ProcessList`, `ProcessEntries`, `EndToEndProcesses`, `ResponseTexts`, `EndToEndResponses`). What the client
writes as METRICS, the server reads back for every snapshot. The server then prints the process list with
escapes, scans it back by searching for substrings without undoing them, and writes names, node name and
timestamp raw into the response; the client cuts it at line feeds and its JSON decoder undoes what is left.
The snapshots that come out as they were are characterised exactly, over all snapshots. On two points JSON
decoders differ, raw control characters and unknown escapes; both are left open in `JsonDecoder`, and every
result holds either way.

**From collector to administrator** (`EndToEndMetrics`, `EndToEndSnapshots`). The queues of snapshots
in the outbox protocol are what the bytes on the wire carry; and once a connection has drained, the
administrator who asks for the node is shown the snapshot collected last.

**Accounts** (`Accounts`, `ClientRuns`, `LoginAnswers`, `NodeLists`, `NodeNames`, `AnswerSignals`, `AccountAgreement`). Login and registration
answers are put together without escaping, framed, and decoded by the client. In every run the client's
idea of its identity, formed from the lines it reads, agrees with the session's; the exact user names for
which the node name arrives are given. The signals that each answer raises are given field by field, node lists included,
which boost's writer escapes. Over whole runs the client has administrator rights, and its collector its name,
exactly as the answers, logouts and stops so far say.

**Requests** (`Requests`, `Handlers`). Every request a client can write is one line, and is read by the session as
what was asked: credentials, nodes, commands and snapshots, whatever is in their strings.

**Commands** (`EndToEndCommands`, `CommandRuns`). From the administrator's request through queues, bytes and
chunks to the client that acts on it: a stream gives back exactly the commands that were sent if and only if
no payload hides one behind a line feed.

**The server** (`Repository`, `Timestamps`, `Redelivery`, `Registry`, `Sessions`, `ServerMachine`,
`ServerEffects`). Latest-row selection, purging, redelivery, attribution of rows to users,
administrator rights and session membership, over every run from a fresh database; and that every
request has its effect: what is stored stays until a purge, what is broadcast reaches every recipient,
who registers can log in, who asks is answered.

Objects that the sources update in place are classes whose methods are proved against functions
on values (`Sync.OnAck`, `LocalStore.Erase`, `WriteQueue.RunPosted`, `Repository.Insert`, ...); the
machines and the theorems are stated over the same functions.

## Findings

- Connecting the ACK slot twice (`client/src/main.cpp:18`) is safe but costs: emptying an outbox of
  `n` items makes the server handle `2^n - 1` METRICS messages (`Draining.DrainAmplification`).
- The ACK is sent although the insert threw (`server/src/network/session.cpp:239`), so an item is
  lost exactly when every insert of it threw before it was erased (`OutboxTheorems.LostIff`,
  `Counterexamples.FailedInsertLosesItem`).
- A stale session can put an older snapshot in front of a newer one of the same timestamp
  (`server/src/data/metric_repository.cpp:278`): exactly when the answering item's first copy is not
  the last with its timestamp (`Redelivery.RedeliveryAcrossSessions`,
  `Counterexamples.StaleSessionHidesNewest`).
- The administrator is shown a snapshot as it was exactly if its node name and timestamp have no quote,
  backslash, line feed or rejected control character, and the names of its processes with a pid that is not negative no quote, line feed or
  rejected control character (`server/src/network/session.cpp:50-51`, `server/src/network/session.cpp:64`,
  `EndToEndResponses.ShownIffIntact`). Some quotes make the whole response undecodable
  (`EndToEndProcesses.QuotedNodeBreaks`); others leave it readable and wrong: the answer about the user `x","error":"y` is taken for an error message
  (`EndToEndResponses.ErrorInName`). Processes with a negative pid vanish
  (`server/src/data/metric_repository.cpp:305`).
- Nothing keeps line feeds out of the raw strings: a JSON escape in a request puts them in, and the client
  cuts the answer there (`client/src/network/client_channel.cpp:62`) and reads the rest as further messages,
  commands included, although no administrator sent one (`CommandRuns.CommandInName`,
  `CommandRuns.QueryHidesCommand`). Without such line feeds every command comes from the administrator
  (`CommandRuns.CommandsComeFromAdmin`).
- A row whose timestamp SQLite cannot read survives the purge that removes later rows, and becomes
  the latest (`server/src/data/metric_repository.cpp:329`, `Repository.PurgeExposesUnreadable`); a
  purge is harmless exactly under the condition of `Repository.PurgeExposesNothingIff`.
- A user name with a quote, a backslash, a line feed or a control character that the decoder rejects keeps
  the client from learning its node name (`server/src/network/session.cpp:166`), and no other does
  (`NodeNames.NodeNameArrives`).
- Connecting sends nothing by itself: snapshots stored while offline wait for the next collection or ACK, since only
  `client/src/business/sync_service.cpp:86` and `client/src/business/sync_service.cpp:121` flush (`Draining.ConnectWaits`,
  `Draining.FlushingBegins`).
- The client's buffer is not cleared on disconnect (`client/src/network/client_channel.cpp:52`); what
  was left there spoils at most the first message of the next connection
  (`EndToEndStream.ReconnectSpoilsAtMostFirst`).
- `tests/server/test_auth_service.cpp:23` expects a `user1` account on a fresh database; the code
  creates only `admin` (`server/src/data/metric_repository.cpp:121`). The model follows the code.

## Assumptions

- Each SQLite call is one atomic step on a table, strings contain no NUL, and AUTOINCREMENT ids of a
  fresh database run without gaps as long as no insert fails.
- `localId` and `userId` are at most 2^53 in magnitude, since the client reads them as doubles.
- One client process uses an outbox at a time. The clock is past 8 January 1970.
- SQLite's `datetime()` is a parameter, known on the timestamps that the programs write.
- How Qt and the server's stream print a number is a parameter (`show`); what the numeral denotes is
  computed over the reals. Finite readings print as JSON numbers, and printing, reading and printing a
  number again gives the same text, as when the client reads a stored snapshot before it sends it.
- Boost's JSON writer is modelled in its compact form: control characters, quotes, backslashes and slashes
  are escaped, and a tree without children is written as an empty string.

## Model

| member | source | states |
|---|---|---|
| Protocol.EncodeWireMessage | shared/src/protocol.cpp:10-19 | builds exactly the frame of the message |
| Protocol.DecodeWireMessage | shared/src/protocol.cpp:21-50 | the loop that pops line ends returns the specified decoding on every line, rejections included |
| Protocol.StripLineEnds | shared/src/protocol.cpp:38-42 | the result is the prefix that does not end in CR or LF, and only line ends were dropped |
| Protocol.DecodeEncoded | shared/src/protocol.cpp:10-50 | for every kind that is a non-empty word, decoding an encoded message gives it back with trailing line ends of the payload stripped |
| Protocol.RoundTrip | shared/src/protocol.cpp:10-50 | decode after encode is the identity if and only if the kind is non-empty and has no space and the payload does not end in CR or LF |
| Protocol.KindIsWord | shared/src/protocol.cpp:28-47 | a decoded kind is non-empty and contains no space, whatever the line |
| Protocol.DecodedIsFramable | shared/src/protocol.cpp:21-50 | whatever was decoded from one line can be framed again and survives |
| Protocol.DecodeFailsIff | shared/src/protocol.cpp:27-32 | a line is no message if and only if it has no space or starts with one |
| Protocol.DecodedParts | shared/src/protocol.cpp:28-47 | a message is the line up to its first space, and the rest without trailing line ends |
| Timestamps.GmTimeMonotone | shared/src/protocol.cpp:56-64 | a later second has later calendar fields |
| Timestamps.GmTimeInverse | shared/src/protocol.cpp:56-64 | the calendar fields denote exactly the second they were computed from |
| Timestamps.FourDigitYears | shared/src/protocol.cpp:66-68 | the year fits four digits exactly before epoch second 253402300800 |
| Timestamps.TextOrderIsTimeOrder | shared/src/protocol.cpp:66-68 | up to year 9999 the text order of timestamps, as SQLite sorts them, is time order, in both formats that are compared |
| Timestamps.TimestampIsRead | shared/src/protocol.cpp:56-68 | both texts of a second, character by character: zero-padded fields and separators, from which the second can be computed again |
| Timestamps.DaysLater | shared/src/protocol.cpp:56-64 | whole days later the clock shows the same time on a date that many days later |
| Lines.SplitIsExact | client/src/network/client_channel.cpp:62-71 | splitting at newlines loses no byte and leaves no newline in any line or in the remainder |
| Lines.SplitIsUnique | client/src/network/client_channel.cpp:62-71 | no other list of lines and remainder makes up the same bytes |
| Lines.SplitResumes | client/src/network/client_channel.cpp:60-71 | splitting a concatenation is splitting the first part, then its remainder with the second |
| Lines.MessagesResume | client/src/network/client_channel.cpp:60-77 | reading can stop and resume at any byte: only the remainder matters |
| Lines.FramesRoundTrip | shared/src/protocol.cpp:10-50 | reading concatenated frames of framable messages gives exactly those messages and an empty remainder |
| Lines.PrefixGivesPrefix | client/src/network/client_channel.cpp:58-94 | a prefix of the bytes yields a prefix of the messages |
| Lines.FrameMessages | client/src/network/client_channel.cpp:62-77 | reading the frame of any message, line feeds included: first the message cut at its first line feed, then whatever the later lines are read as |
| Lines.FramesApart | client/src/network/client_channel.cpp:58-94 | a stream of frames is read frame by frame, whatever the payloads |
| ClientChannels.ClientChannel.SendWireMessage | client/src/network/client_channel.cpp:29-39 | appends one frame to the socket when it is open, nothing otherwise |
| ClientChannels.ClientChannel.Dispatch | client/src/network/client_channel.cpp:73-92 | raises the message signal and then the ACK or COMMAND signal; a line that is no message raises none |
| ClientChannels.ClientChannel.OnReadyRead | client/src/network/client_channel.cpp:58-94 | the loop emits the signals of all complete lines in order and keeps exactly the remainder |
| ClientChannels.EverythingIsSignalled | client/src/network/client_channel.cpp:73-92 | every message read is announced and every ACK passed on with its id, each once and in order |
| ClientChannels.ChunkingInvariance | client/src/network/client_channel.cpp:58-94 | how the bytes are cut into chunks changes neither the signals nor the remainder |
| ClientChannels.AckRoundTrip | server/src/network/session.cpp:239-240 | the ACK of any id is framable and the client reads that id from it |
| JsonDecoder.ParsePlain | client/src/business/metrics_json.cpp:37-38 | text without quote, backslash and control character is decoded as itself |
| JsonDecoder.ParseNumber | client/src/business/metrics_json.cpp:56 | a numeral is read up to the character that ends it, for every JSON number |
| JsonDecoder.IntegerValue | client/src/business/metrics_json.cpp:56 | a printed integer of either sign is a JSON number and denotes itself |
| JsonPrefixes.CutTextIsNothing | client/src/business/metrics_json.cpp:37-38 | a document that was cut anywhere decodes to nothing |
| JsonPrefixes.MembersGrow | client/src/business/metrics_json.cpp:37-38 | members that were read to their end are read the same with more text behind them |
| RawFields.StringInside | client/src/business/metrics_json.cpp:37-43 | a string that starts inside a raw text ends inside it, at its closing quote, or where no decoder can go on |
| RawFields.MembersInside | client/src/business/metrics_json.cpp:37-43 | whatever members a raw text makes up, their strings are shorter than the text |
| RawFields.RawReadsBack | client/src/business/metrics_json.cpp:37-43 | a raw text is read back, or anything as long in its place, only if it is plain and was not cut |
| RawFields.SecondIsSafe | server/src/network/session.cpp:50-51 | the same with a second raw text behind the first, into which reading may go on |
| LineReader.CompleteReadTakesOne | server/src/network/session.cpp:116-122 | one completion takes exactly the first line off the buffer and its message, if any, off the messages to come |
| LineReader.HandledSoFar | server/src/network/session.cpp:100-124 | in every interleaving of arrivals and completions, what was handled and what the buffer still holds make up the messages of all bytes arrived |
| LineReader.SameAsDrainAll | server/src/network/session.cpp:100-124 | with no completion due, this reader has handled what the client's loop would emit for the same bytes |
| LineReader.CatchesUp | server/src/network/session.cpp:116-122 | in every run, as many completions as there are complete lines buffered handle everything that has arrived |
| WriteQueue.AlwaysConsistent | server/src/network/session.cpp:90-98 | over all interleavings of posts, completions, errors and stops: at most one write in flight; while not stopped, one is in flight exactly when the deque is non-empty; completed and queued frames are the posted messages that ran, in order |
| WriteQueue.StopStops | server/src/network/session.cpp:90-92 | a stop takes effect at once, whatever the writer was doing, and touches neither deque nor writes |
| WriteQueue.FailureStops | server/src/network/session.cpp:304-307 | so does the failure of a write in flight |
| WriteQueue.StoppedIffEnded | server/src/network/session.cpp:90-92 | in every run the session is stopped if and only if it was told to stop or a write in flight failed |
| WriteQueue.StoppedStartsNothing | server/src/network/session.cpp:298-299 | whatever happens before and after a stop, no further write is started and at most the one in flight completes |
| WriteQueue.WireIsPrefix | server/src/network/session.cpp:289-312 | the bytes on the wire are a prefix of the frames of all messages sent, and all of them once nothing is left to write |
| WriteQueue.CatchesUp | server/src/network/session.cpp:289-312 | in every run a session that is not stopped has written all it was sent once its posts have run and its writes completed |
| EndToEndStream.ServerToClient | server/src/network/session.cpp:289-312 | for framable messages the client emits the signals of a prefix of what was sent under any chunking, and of all of it once the queue has drained and the bytes have arrived |
| EndToEndStream.ClientToServer | server/src/network/session.cpp:100-124 | a session handles a prefix of what the client wrote, and all of it once everything arrived and no completion is due |
| EndToEndStream.ReconnectSpoilsAtMostFirst | client/src/network/client_channel.cpp:52-56 | an unfinished line left in the buffer affects only the first message of the next connection |
| EndToEndStream.RelayedCommandSurvives | server/src/network/session.cpp:243-247 | any command read from a line reaches every listener with the same payload |
| LocalStore.LocalMetricsStore.EnqueueItem | client/src/data/local_metrics_store.cpp:78-94 | appends the item under a new id above all stored ids and returns that id |
| LocalStore.LocalMetricsStore.Peek | client/src/data/local_metrics_store.cpp:96-118 | returns the stored item with the smallest id, and none exactly when the table is empty |
| LocalStore.LocalMetricsStore.EraseItem | client/src/data/local_metrics_store.cpp:120-130 | removes the row with the id and nothing else, and keeps ids ordered |
| LocalStore.EraseCutsOne | client/src/data/local_metrics_store.cpp:120-130 | erasing a stored id cuts out exactly its position |
| LocalStore.EraseKeepsWellFormed | client/src/data/local_metrics_store.cpp:120-130 | after erasing, ids still increase and stay below the counter |
| Sync.SyncService.FlushOutbox | client/src/business/sync_service.cpp:89-112 | while connected writes one METRICS frame with the oldest item under its id, else nothing; the store is unchanged |
| Sync.FlushIsOldest | client/src/business/sync_service.cpp:89-107 | nothing is written while disconnected or with nothing stored, else exactly the oldest item under its id |
| Sync.SyncService.OnSnapshotFromWorker | client/src/business/sync_service.cpp:77-87 | enqueues the snapshot and sends the head |
| Sync.SyncService.OnAckReceived | client/src/business/sync_service.cpp:114-122 | erases a positive id and sends the new head in any case |
| Sync.SyncService.StartCollecting | client/src/business/sync_service.cpp:24-53 | starts a collector under the node name unless one runs |
| Sync.SyncService.StopCollecting | client/src/business/sync_service.cpp:54-64 | drops the collector and administrator rights, announcing the change |
| Sync.SyncService.LogOut | client/src/business/sync_service.cpp:66-75 | drops administrator rights only, announcing a change |
| Sync.SyncService.OnMessageReceived | client/src/business/sync_service.cpp:124-182 | adopts role, node name and user id of a positive answer, and raises exactly the signals of the message, in order |
| Sync.SyncService.RequestNodesList | client/src/business/sync_service.cpp:227-231 | asks only if the client believes it is the administrator |
| Sync.SyncService.RequestNodeMetrics | client/src/business/sync_service.cpp:233-238 | and so is the request for the metrics of one node |
| Accounts.AnnouncedRights | client/src/business/sync_service.cpp:134-162 | whatever messages arrive, the rights announced last are the rights held |
| ClientRuns.RightsIff | client/src/business/sync_service.cpp:124-162 | in every run the client holds administrator rights if and only if a login gave them and no later answer, logout or stop has taken them |
| ClientRuns.CollectorKeepsName | client/src/business/sync_service.cpp:24-43 | a collector keeps the name it was started with, whoever logs in meanwhile, until it is stopped |
| ClientRuns.NoCollectorIff | client/src/business/sync_service.cpp:24-75 | and none runs if and only if whatever started one was followed by a stop |
| OutboxProtocol.AckEffect | client/src/business/sync_service.cpp:114-122 | running the slot h times for one ACK erases the head or nothing and sends h copies of what is then the head |
| OutboxProtocol.AckOnce | client/src/business/sync_service.cpp:114-122 | one run of the slot erases the head or nothing |
| OutboxProtocol.SecondAckIsIdle | client/src/main.cpp:18-19 | further runs of the slot for the same ACK erase nothing |
| OutboxProtocol.FirstDeliveriesIds | server/src/network/session.cpp:207-241 | leaving out repeats adds nothing and loses no id |
| OutboxProtocol.DeliveryExtendsPrefix | server/src/network/session.cpp:207-241 | handling one more genuine message repeats an id or extends the delivered prefix by the next item |
| OutboxProtocol.Invariant | client/src/business/sync_service.cpp:77-122 | every reachable state keeps the protocol invariant, for every h |
| OutboxOrder.TrafficAlwaysOrdered | client/src/business/sync_service.cpp:89-122 | every session, stale or live, receives non-decreasing ids in every run |
| OutboxOrder.PipelineAlwaysOrdered | client/src/business/sync_service.cpp:89-122 | on the live connection only the item erased last and the current head are under way, in this order |
| OutboxTheorems.FirstDeliveriesArePrefix | client/src/business/sync_service.cpp:77-122 | in every run and for every h, the server's log without repeats is a prefix of the history, of length erased or erased plus one |
| OutboxTheorems.CollectedIsStored | client/src/business/sync_service.cpp:77-87 | every snapshot collected, connected or not, is stored behind all others under the next number |
| OutboxTheorems.AckErasesHeadOrNothing | client/src/data/local_metrics_store.cpp:62-66 | however late or often an ACK arrives it removes the current head or nothing |
| OutboxTheorems.CountIsBacklog | client/src/data/local_metrics_store.cpp:132-148 | the number of stored items is, up to one, the number of collected snapshots the server has not handled |
| OutboxTheorems.StoredIffTried | server/src/network/session.cpp:229-231 | the metrics table holds an item if and only if an insert of it did not throw |
| OutboxTheorems.Conservation | server/src/network/session.cpp:229-240 | an item waits in the outbox exactly until erased; an erased one is a row of the metrics table, or an insert of it threw |
| OutboxTheorems.LostIff | server/src/network/session.cpp:229-240 | an item is in neither if and only if it was erased and every insert of it threw |
| OutboxTheorems.NothingLostUnlessInsertThrows | server/src/network/session.cpp:229-240 | with no failing insert, outbox and metrics table together hold the whole history |
| Draining.ServePays | server/src/network/session.cpp:229-240 | a session, live or stale, that handles one message lowers the outstanding work by exactly its price |
| Draining.AckPays | client/src/business/sync_service.cpp:114-122 | receiving one ACK lowers the outstanding work by exactly its price, whatever it makes the client send |
| Draining.DrainRunPays | client/src/business/sync_service.cpp:89-122 | the price of any drain run is the difference in outstanding work |
| Draining.CanDrainMeansEnabled | client/src/business/sync_service.cpp:89-122 | something is under way exactly when a session or the client can take a drain step |
| Draining.FlushingBegins | client/src/business/sync_service.cpp:77-122 | a connected client has something under way for what it stores after any collection and any ACK, usable or not |
| Draining.ConnectWaits | client/src/network/client_channel.cpp:46-50 | connecting alone puts nothing under way, whatever is stored |
| Draining.Drains | client/src/business/sync_service.cpp:89-122 | every interleaving, stale sessions included, stops after exactly the same number of steps; as soon as the live connection is quiet the outbox is empty and the whole history delivered in order |
| Draining.DrainCanFinish | client/src/business/sync_service.cpp:89-122 | a drain run to the end exists from every state, whatever the inserts do |
| Draining.CostIsGeometric | client/src/main.cpp:18-19 | one METRICS for an item sets off a geometric number of METRICS in the ratio h |
| Draining.DrainAmplification | client/src/main.cpp:18-19 | emptying n items takes 1 + h + ... + h^(n-1) METRICS messages in every interleaving, besides those stale sessions held: n for h = 1, 2^n - 1 as wired |
| EndToEndSnapshots.LatestIsLast | server/src/data/metric_repository.cpp:275-278 | once every item has been handled, the latest row of the node is the item collected last, if it is the newest and was stored for the node |
| EndToEndSnapshots.DrainedRow | client/src/business/sync_service.cpp:89-122 | as soon as the live connection of a drain run is quiet, the query finds the snapshot collected last |
| EndToEndSnapshots.AnswerRaises | client/src/business/sync_service.cpp:171-180 | the answer with a stored item, read off the wire, first raises one signal, with exactly what is left of the item |
| EndToEndSnapshots.NoDataIsNoMetrics | client/src/business/sync_service.cpp:174-175 | the answer without data arrives whole and raises none |
| EndToEndSnapshots.AdministratorSeesLast | server/src/network/session.cpp:263-283 | whatever was lost, resent and interleaved, and whatever other clients store: after draining, the administrator who asks for the node is shown, off the wire, the snapshot collected last |
| Counterexamples.FailedInsertLosesItem | server/src/network/session.cpp:229-240 | a concrete run in which a failed insert leaves its item in neither outbox nor table |
| Counterexamples.LateRun | client/src/business/sync_service.cpp:89-122 | for every number of connections of the slot, a concrete run in which a stale session handles item 1 after item 2 was handled |
| Counterexamples.TiedAnswers | server/src/data/metric_repository.cpp:275-278 | in that run, with equal timestamps, the query answers item 1, and item 2 if the repeat is left out |
| Counterexamples.StaleSessionHidesNewest | server/src/data/metric_repository.cpp:275-278 | in that run the repeat is invisible if and only if the timestamps differ |
| ProcessList.PrintEscaped | server/src/data/metric_repository.cpp:215-219 | the inner loop escapes quotes and backslashes and nothing else |
| ProcessList.PrintProcesses | server/src/data/metric_repository.cpp:210-224 | the nested loops print exactly the specified text of the list |
| ProcessList.SkipSpaces | server/src/data/metric_repository.cpp:301-302 | stops at the first character that is no white space |
| ProcessList.SkipDigits | server/src/data/metric_repository.cpp:303-304 | stops at the first character that is no digit |
| ProcessList.SkipToQuote | server/src/data/metric_repository.cpp:310-311 | stops at the first quote or at the end |
| ProcessList.ReadName | server/src/data/metric_repository.cpp:307-312 | returns the text between the next name mark and the next quote |
| ProcessList.ReadEntry | server/src/data/metric_repository.cpp:301-315 | returns what one pid mark contributes, the exception of a numeral beyond INT_MAX included |
| ProcessList.ScanProcesses | server/src/data/metric_repository.cpp:296-318 | the scanner stays in bounds and terminates on every string and collects exactly the specified entries |
| ProcessList.EscapedQuote | server/src/data/metric_repository.cpp:215-219 | in an escaped name every quote is preceded by a backslash |
| ProcessList.NoPidBehind | server/src/data/metric_repository.cpp:300 | no position inside a printed name, whatever the name, looks like a pid mark |
| ProcessList.EntryRead | server/src/data/metric_repository.cpp:301-315 | a printed entry is read as its pid with the escaped name cut at the first quote, and as nothing if the pid is negative |
| ProcessList.ScanOfPrint | server/src/data/metric_repository.cpp:296-318 | scanning a printed list yields, on all inputs, the entries with non-negative pid in order, names escaped and cut at the first quote |
| MetricsJson.BuildMetricsJson | server/src/network/session.cpp:45-69 | the statements and the loop with its first flag write exactly the specified document, raw node name and timestamp included |
| MetricsJson.FromJson | client/src/business/metrics_json.cpp:35-62 | reads every field of the document with its default, and the processes in order |
| MetricsJson.ReadFields | server/src/network/session.cpp:49-58 | members whose texts mean their values are all read, and leave the rest to what follows |
| MetricsJson.SnapshotOfMembers | client/src/business/metrics_json.cpp:40-49 | the header written by the server comes back field by field, readings as their printed numerals |
| ProcessEntries.ParseEscaped | server/src/data/metric_repository.cpp:215-219 | JSON string decoding undoes the printer's escaping, whatever follows, unless the decoder rejects a control character |
| ProcessEntries.CutOfQuoted | server/src/data/metric_repository.cpp:309-312 | a name with a quote leaves the scanner as its escaped prefix with a dangling backslash |
| ProcessEntries.ParseGoodEntry | server/src/network/session.cpp:64 | an entry whose name was escaped once decodes to its pid and name |
| ProcessEntries.EntryValue | server/src/network/session.cpp:64 | what the members from the name on decode to decides the whole entry |
| EndToEndProcesses.BadItems | server/src/network/session.cpp:60-67 | one name with a quote, or with a character the decoder rejects, makes the array undecodable |
| EndToEndProcesses.GoodItems | server/src/network/session.cpp:60-67 | with decodable names the array decodes to the objects of the list |
| EndToEndProcesses.Document | server/src/network/session.cpp:49-68 | a plain header decodes to its members in front of those of the process list |
| EndToEndProcesses.QuotedNodeBreaks | server/src/network/session.cpp:50 | a quote in the raw node name, not followed by what may follow a string, makes every response undecodable |
| EndToEndProcesses.QuotedUserBreaks | server/src/network/session.cpp:50 | every user whose name is plain text and a quote is such a case |
| EndToEndProcesses.ResponseIsFramable | server/src/network/session.cpp:281-282 | a response without newlines in its strings is one frame |
| EndToEndResponses.ResponseIs | client/src/business/metrics_json.cpp:35-62 | for a clear header and every process list: the exact snapshot the client reads off the wire, or nothing if a kept name is illegible |
| EndToEndResponses.ResponseIsIdentity | client/src/business/metrics_json.cpp:51-59 | the list comes back unchanged if and only if no pid is negative and every name is legible |
| EndToEndResponses.ResponseIsNoError | client/src/business/sync_service.cpp:174 | with a clear node name and timestamp no response is taken for an error message |
| EndToEndResponses.ShownIffIntact | client/src/business/sync_service.cpp:171-180 | for every snapshot with printable numbers: the client shows it as it was if and only if node name and timestamp are clear and the kept names legible |
| EndToEndResponses.ErrorInName | client/src/business/sync_service.cpp:174 | a node name that closes its quote and goes on with an error member leaves the response readable, and the client shows nothing |
| EndToEndResponses.StoredSnapshotComesBack | server/src/data/metric_repository.cpp:272-323 | through insert, latest query, frame and client: the newest stored snapshot is found, and shown as it was if and only if it is intact |
| MetricsPayload.ParseQtEscaped | client/src/business/metrics_json.cpp:27-32 | whatever string the client writes, control characters included, is decoded as itself |
| MetricsPayload.ParseProcesses | client/src/business/metrics_json.cpp:22-30 | the written process array decodes to its entries in order |
| MetricsPayload.PayloadRoundTrip | server/src/network/session.cpp:207-227 | for every snapshot, what the server reads from the client's payload is the snapshot without identity, numbers as printed |
| MetricsPayload.PayloadIsFramable | client/src/business/sync_service.cpp:101-106 | every METRICS message is one line, whatever is in its strings |
| EndToEndMetrics.SessionHandlesSnapshots | server/src/network/session.cpp:100-124 | from any part of the bytes written for some snapshots, in any pieces, a session handles exactly the first of them, each readable as what was written |
| EndToEndMetrics.AckClosesLoop | server/src/network/session.cpp:239-240 | the ACK for a payload brings back, over the wire, the id under which the client stored the item |
| LoginAnswers.AnswersAreText | server/src/network/session.cpp:160-170 | the positive login and registration answers differ only in the role they may name |
| LoginAnswers.AnswerObject | client/src/business/sync_service.cpp:128-132 | an answer decodes to status, role and whatever the unescaped node name leaves of the rest |
| NodeNames.NodeNameReadBack | client/src/business/sync_service.cpp:131 | an answer, whole or cut, decodes to a node name as long as the raw one only if it is whole and that name plain |
| NodeNames.NodeNameArrives | server/src/network/session.cpp:160-170 | the first message the client reads of the answer's frame gives the session's node name if and only if the user name has no quote, backslash, line feed or rejected control character |
| AccountAgreement.LoginIsAdopted | client/src/business/sync_service.cpp:126-143 | a positive login gives the client the session's id, node name and rights |
| AccountAgreement.RegistrationIsAdopted | client/src/business/sync_service.cpp:144-162 | a positive registration gives the client the session's id and node name, without rights |
| AccountAgreement.RefusalsAreIgnored | client/src/business/sync_service.cpp:124-162 | refusals leave the client's account as it was |
| AccountAgreement.OthersAreIgnored | client/src/business/sync_service.cpp:124-182 | ACKs, commands, node lists and metrics answers of one line leave the client's account as it was |
| AccountAgreement.NextSession | server/src/network/session.cpp:142-205 | every change of a session's identity is announced in the frame queued with it |
| AccountAgreement.AccountsAgree | client/src/business/sync_service.cpp:126-162 | in every run a client that has read every line its session sent agrees with it on id and node name, and has administrator rights only if the session has, local logouts included, if the user names sent on this session are clear and no other message sent on it has a line feed |
| NodeLists.NodesObject | server/src/network/session.cpp:249-261 | whatever the nodes are called, the written list decodes to their names in order; an empty one decodes to no array |
| NodeLists.NodesOnOneLine | server/src/network/session.cpp:36-42 | the list is one line, whatever is in the names |
| AnswerSignals.LoginIsAnnounced | client/src/business/sync_service.cpp:126-143 | read off the wire, a positive login raises exactly its result with role, node name and id, and then the change of rights |
| AnswerSignals.RegistrationIsAnnounced | client/src/business/sync_service.cpp:144-162 | a positive registration raises its result without a message, and the end of rights if there were any |
| AnswerSignals.LoginRefusalIsAnnounced | client/src/business/sync_service.cpp:126-143 | a refused login raises a failure with empty fields and nothing else |
| AnswerSignals.RegisterRefusalIsAnnounced | client/src/business/sync_service.cpp:144-162 | a refused registration raises a failure with the server's message |
| AnswerSignals.NodesAreAnnounced | client/src/business/sync_service.cpp:163-170 | the list written for any names raises one signal with exactly these names, in order |
| Requests.CredentialsAreRead | client/src/ui/main_window.cpp:245-248 | for all strings, the user name the client writes is read as the user name and the password as the password |
| Requests.TargetIsRead | server/src/network/session.cpp:265-266 | for every string, the node the client names is the node looked up |
| Requests.DefaultsAreRead | server/src/network/session.cpp:207-227 | what an empty request leaves out is read as its default, the timestamp as the time of arrival |
| Requests.RequestIsRead | server/src/network/session.cpp:126-140 | every request is understood by the session as what the client asked |
| Requests.RequestIsFramable | client/src/network/client_channel.cpp:29-39 | every request is one line, whatever is in its strings |
| Requests.RequestsArrive | server/src/network/session.cpp:100-124 | from any part of the bytes of some requests, in any pieces, a session reads the first of them in order, and all of them once everything has arrived |
| Repository.MetricRepository.constructor | server/src/data/metric_repository.cpp:119-122 | a fresh database holds the administrator and no rows |
| Repository.MetricRepository.AddUserRow | server/src/data/metric_repository.cpp:92-104 | inserts the user unless the name is taken |
| Repository.MetricRepository.AuthenticateUser | server/src/data/metric_repository.cpp:124-146 | finds the user with both name and password |
| Repository.Authenticate | server/src/data/metric_repository.cpp:128-143 | succeeds exactly if some row has the name and the password, and answers with such a row |
| Repository.MetricRepository.RegisterUser | server/src/data/metric_repository.cpp:148-176 | refuses a taken name, else inserts a User-role row with node name derived from the user name |
| Repository.RegisterSucceedsIff | server/src/data/metric_repository.cpp:148-176 | registration succeeds if and only if no user has the name, and then adds that one row and nothing else |
| Repository.MetricRepository.InsertSnapshot | server/src/data/metric_repository.cpp:192-242 | appends the printed row, or changes nothing when SQLite fails |
| Repository.MetricRepository.GetLatestSnapshotForNode | server/src/data/metric_repository.cpp:272-323 | reads back the latest row of the node through the scanner |
| Repository.MetricRepository.PurgeOldMetrics | server/src/data/metric_repository.cpp:325-337 | deletes exactly the rows whose readable time is before the cutoff |
| Repository.LatestIsFirst | server/src/data/metric_repository.cpp:275-278 | the chosen row is outranked by no row of the node, and exists exactly if the node has a row |
| Repository.LatestIsUnique | server/src/data/metric_repository.cpp:275-278 | no other row satisfies that |
| Repository.InsertedIsLatest | server/src/data/metric_repository.cpp:275-278 | a row just inserted is the latest if and only if no row of its node has a later timestamp |
| Repository.ReadWritten | server/src/data/metric_repository.cpp:284-318 | reading a written row returns the snapshot with what survives of its process list |
| Repository.LatestNeverFails | server/src/data/metric_repository.cpp:284-318 | on rows this server wrote the query never throws and answers with one of them |
| Repository.InsertKeepsWritten | server/src/data/metric_repository.cpp:192-242 | an insert keeps row ids increasing and every row in printed form |
| Repository.KeptIsRecent | server/src/data/metric_repository.cpp:325-330 | a row with a well-formed timestamp survives the purge if and only if it is not older than the cutoff |
| Repository.KeptForAWeek | server/src/data/metric_repository.cpp:325-330 | a purge keeps a row exactly until seven days after its timestamp |
| Repository.AWeekIsSevenDays | server/src/data/metric_repository.cpp:329 | which is the same time of day on a date seven days later |
| Repository.PurgeExposesNothingIff | server/src/data/metric_repository.cpp:325-330 | for any rows, datetime() and cutoff: a purge leaves the latest row or none if and only if the latest row is kept or no row of the node is |
| Repository.PurgeCommutesWithLatest | server/src/data/metric_repository.cpp:325-330 | which well-formed timestamps guarantee |
| Repository.PurgeExposesUnreadable | server/src/data/metric_repository.cpp:325-330 | with an unreadable timestamp a purge does expose an older row |
| Redelivery.FirstRowOf | server/src/data/metric_repository.cpp:192-242 | every row has a first row of its item, and it is no later |
| Redelivery.RepeatsAreInvisibleIff | server/src/data/metric_repository.cpp:275-278 | repeats do not change the answer if and only if the answering item is, by its first copy, the last of the items with its timestamp |
| Redelivery.RepeatsAreInvisible | server/src/data/metric_repository.cpp:275-278 | ordered client ids, or distinct timestamps, are enough for that |
| Redelivery.LatestOfNode | server/src/data/metric_repository.cpp:278 | the query sees the rows of its node and no others |
| Redelivery.LatestAmongOthers | server/src/data/metric_repository.cpp:278 | rows of other nodes in between, and the row ids they take up, do not change the answer |
| Redelivery.TableIsInserted | server/src/data/metric_repository.cpp:192-242 | for every log, the rows of a run are what its inserts leave in a fresh database |
| Redelivery.RedeliveryIsInvisible | client/src/business/sync_service.cpp:89-122 | in every run, within a session of fixed identity, rows arrive in id order and redelivery is invisible to the query, ties included |
| Redelivery.RedeliveryAcrossSessions | client/src/business/sync_service.cpp:89-122 | in every run, across current and stale sessions, redelivery is invisible to the query for a node if and only if the answering item is, by its first copy, the last with its timestamp |
| Redelivery.DistinctTimesSuffice | client/src/business/sync_service.cpp:89-122 | so it is when no two collected snapshots carry the same timestamp |
| Registry.SessionRegistry.Join | server/src/business/session_registry.cpp:8-12 | appends the session |
| Registry.SessionRegistry.Leave | server/src/business/session_registry.cpp:14-25 | removes the session and every dead reference, keeping the order |
| Registry.SessionRegistry.Broadcast | server/src/business/session_registry.cpp:27-50 | whatever other threads drop between the two loops, the pruned list is the list of recipients; each occurs once, and every reference nobody drops is among them |
| Registry.SessionRegistry.Nodes | server/src/business/session_registry.cpp:52-64 | lists the node names of the live references in order |
| Registry.WithoutAppend | server/src/business/session_registry.cpp:14-25 | the references that stay keep their order and their number |
| Registry.DeadStaysDead | server/src/business/session_registry.cpp:32-43 | a reference that could not be locked is not locked later through a duplicate |
| Registry.LockedSpec | server/src/business/session_registry.cpp:32-38 | only references alive when inspected are locked, all of those are, and each once |
| Registry.LockedIfQuiet | server/src/business/session_registry.cpp:32-38 | with nothing dropped meanwhile the recipients are exactly the live references |
| Registry.RegistryAgrees | server/src/business/session_registry.cpp:8-50 | in every run, broadcasts with references dropped meanwhile included, the live members are exactly the sessions started and not stopped, each once |
| Registry.BroadcastReaches | server/src/business/session_registry.cpp:27-50 | a broadcast in any reachable state reaches only started, unstopped sessions, each once, and all of them that nobody drops meanwhile |
| Sessions.Session.constructor | server/include/rmm/server/network/session.hpp:57-60 | a new session is anonymous with an idle writer |
| Sessions.Session.Start | server/src/network/session.cpp:85-88 | joins the registry |
| Sessions.Session.Stop | server/src/network/session.cpp:90-98 | stops once and leaves the registry |
| Sessions.Session.BytesArrive | server/src/network/session.cpp:102-103 | arriving bytes change no message that was complete and only continue the unfinished line |
| Sessions.Session.OnRead | server/src/network/session.cpp:110-124 | takes exactly one line off the buffer and decodes it |
| Sessions.Session.SendMessage | server/src/network/session.cpp:289-296 | posts the message to the strand |
| Sessions.Session.RunPosted | server/src/network/session.cpp:289-296 | queues the frame and starts a write only if the deque was empty |
| Sessions.Session.DoWrite | server/src/network/session.cpp:298-312 | starts a write unless stopped or nothing is queued |
| Sessions.Session.WriteCompleted | server/src/network/session.cpp:308-310 | pops the written frame and continues |
| Sessions.Session.WriteFailed | server/src/network/session.cpp:304-307 | stops the session |
| Sessions.Session.HandleLogin | server/src/network/session.cpp:142-173 | reads the credentials, takes over the authenticated user's identity and answers; a refusal leaves the identity |
| Sessions.Session.HandleRegister | server/src/network/session.cpp:175-205 | reads the credentials, registers, answers and takes over the new identity without administrator rights |
| Sessions.Session.HandleMetrics | server/src/network/session.cpp:207-241 | reads the payload with its defaults, stores the snapshot under the session's identity and acknowledges, also when the insert throws; a payload that does not parse does nothing |
| Sessions.Session.HandleCommand | server/src/network/session.cpp:243-247 | broadcasts only for an administrator |
| Sessions.Session.HandleGetMetrics | server/src/network/session.cpp:263-283 | answers an administrator with the document of the latest snapshot or "no data", and nobody else |
| Sessions.Session.HandleNodesList | server/src/network/session.cpp:249-261 | answers an administrator with the names of the live sessions in order, and nobody else |
| Sessions.Session.HandleMessage | server/src/network/session.cpp:126-140 | the message goes to the handler of its type: identity, tables and answer become what the request brings about, and an unknown type changes nothing |
| ServerMachine.UsersAlwaysOk | server/src/data/metric_repository.cpp:148-176 | in every run user ids and names are unique, node names derive from user names, and the only Admin-role user is admin |
| ServerMachine.NodeNamesAreUnique | server/src/data/metric_repository.cpp:156-157 | node names identify users and none is the anonymous one |
| ServerMachine.IdentitiesAlwaysEarned | server/src/network/session.cpp:142-205 | a session is anonymous or carries exactly the identity of a user who authenticated on it |
| ServerMachine.AdminLoginIs | server/src/network/session.cpp:155-157 | only the credentials of the built-in account open an administrator's session |
| ServerMachine.AdminsAlwaysLoggedIn | server/src/network/session.cpp:155-157 | a session with administrator rights had that login in its past |
| ServerMachine.AdminSessionIsAdmin | server/src/data/metric_repository.cpp:119-122 | an administrator's session carries the identity of the one Admin-role user |
| ServerMachine.CommandsAlwaysAuthorised | server/src/network/session.cpp:243-247 | in every run every COMMAND queued at a session was put there, as one of its recipients and with its payload, by a step of a session that acted at that moment under the identity of the Admin-role user |
| ServerMachine.RowsAlwaysTraced | server/src/network/session.cpp:207-231 | every stored row was written by a METRICS request under the identity its session had then |
| ServerMachine.AlwaysWritten | server/src/data/metric_repository.cpp:192-242 | every reachable table has increasing row ids and printed process lists, purges and restarts included |
| ServerMachine.RowIdentity | server/src/network/session.cpp:210-213 | every row carries the anonymous pair or the exact id and node name of an existing user |
| ServerMachine.RowAttribution | server/src/network/session.cpp:210-213 | a row with a user's node name carries the user's id and was sent on a session on which that user had authenticated |
| ServerMachine.LatestIsFromUser | server/src/data/metric_repository.cpp:272-323 | the latest snapshot of a user's node is readable, carries the user's id and came from that user |
| ServerEffects.NextIsEffect | server/src/network/session.cpp:126-140 | a step of the machine is what a session's handler does with the request, with all other sessions left alone |
| ServerEffects.MetricsAreStored | server/src/network/session.cpp:207-241 | in every run an accepted METRICS adds one new row, with what was sent and the identity the session has then; the ACK is posted next in any case, and a failed insert changes no table |
| ServerEffects.StoredIffSpared | server/src/data/metric_repository.cpp:325-337 | that row is in the table from then on, if and only if every later purge keeps it |
| ServerEffects.RowStays | server/src/data/metric_repository.cpp:325-337 | the same for any row at any moment |
| ServerEffects.FramesStay | server/src/network/session.cpp:289-296 | what was posted to a session is never taken back |
| ServerEffects.CommandIsPosted | server/src/business/session_registry.cpp:46-49 | an administrator's command is posted once to each recipient, to nobody else, and stays posted |
| ServerEffects.OthersCannotCommand | server/src/network/session.cpp:244 | nobody else's command changes anything |
| ServerEffects.LoginTakesEffect | server/src/network/session.cpp:142-173 | in every run a login with a user's name and password gives the session that user's identity and answer; any other leaves the identity and is refused |
| ServerEffects.SignUpTakesEffect | server/src/network/session.cpp:175-205 | in every run a registration under a free name adds that user and logs the session in; under a taken one it is refused |
| ServerEffects.RegisteredCanLogIn | server/src/data/metric_repository.cpp:124-176 | who registered can log in on any session at any later time, restarts included, with that password and no other |
| ServerEffects.AdminCanLogIn | server/src/data/metric_repository.cpp:119-122 | at any time the built-in credentials open an administrator's session |
| ServerEffects.QueryIsAnswered | server/src/network/session.cpp:263-283 | an administrator's question never fails and is answered with the latest snapshot, or with "no data" exactly if the node has no row |
| ServerEffects.StoredIsFound | server/src/network/session.cpp:207-283 | once a snapshot was stored, and until a purge, the question about its node finds one that is no older |
| ServerEffects.AcceptOpens | server/src/network/session.cpp:85-88 | a new connection is the next session, anonymous, and changes nothing else |
| ServerEffects.PresentIff | server/src/network/session.cpp:90-98 | a session is there as long as it is not closed and the server not restarted |
| ServerEffects.ClosedIsSilent | server/src/network/session.cpp:90-98 | after that no request of it changes anything |
| ServerEffects.RestartKeepsTables | server/src/data/metric_repository.cpp:119-122 | a restart loses no user and no row |
| EndToEndCommands.CommandsAreThoseSent | client/src/network/client_channel.cpp:80-92 | for all messages a session can send: the commands read from their frames are those sent if and only if no payload hides one behind a line feed |
| EndToEndCommands.ReceivedWasSent | client/src/network/client_channel.cpp:80-92 | of any part of the stream, in any chunks, a client acts only on commands that were sent, if none is hidden |
| CommandRuns.FramesUpright | server/src/network/session.cpp:142-287 | in every run without line feeds in names, timestamps and numbers, every message of every session is one line |
| CommandRuns.CommandsComeFromAdmin | server/src/network/session.cpp:243-247 | in every such run, whatever command a client acts on was broadcast by a step of the administrator |
| CommandRuns.CommandArrives | server/src/business/session_registry.cpp:46-49 | and every command of the administrator is acted on by the client of each recipient, in any chunks, once its session has written everything |
| CommandRuns.CommandInName | server/src/network/session.cpp:189-197 | a concrete run without an administrator in which a client reads a command |
| CommandRuns.QueryHidesCommand | server/src/network/session.cpp:50 | with such a node name every answer about the node is read as containing a command |

## Left out

- OutboxProtocol.Invariant: covers one client process per outbox and METRICS handled whole; a line cut by a disconnect counts as lost.
- OutboxTheorems.Conservation: speaks of what was inserted; rows that a purge deletes later are not part of it. Readings are compared before printing.
- Draining.Drains: assumes that nothing unfinished was left in the client's receive buffer, and that no new snapshot is collected meanwhile.
- Redelivery.RedeliveryAcrossSessions: takes it as given that one node name stands for one user id, which ServerMachine.IdentitiesAlwaysEarned provides.
- EndToEndSnapshots.AdministratorSeesLast: no purge happens between the last insert and the request.
- EndToEndResponses.ShownIffIntact: is about the first message the client makes of the frame; what a cut answer's later lines are read as is given for commands only.
- JsonDecoder.ParsePlain: bytes above 127 stand for themselves, and a pair of surrogate escapes decodes to six bytes instead of four.
- MetricsPayload.PayloadRoundTrip: strings are valid UTF-8; the server's number parser is modelled on JSON numerals, its wider syntax on hand-written payloads is not.
- AccountAgreement.AccountsAgree: follows one connection; an account kept from an earlier connection is any starting value.
- NodeNames.NodeNameArrives: for other names it says that the node name does not arrive with the answer, not what arrives instead.
- Sync.SyncService.OnMessageReceived: log messages are not among the signals.
- Repository.MetricRepository.PurgeOldMetrics: the cutoff is computed on seconds after 1970, not by SQLite's date arithmetic.
- Repository.MetricRepository.InsertSnapshot: the raw payload column is not stored; it is only read by a query that no handler uses.
- Sessions.Session.HandleMetrics: an exception that leaves the handler ends it without an effect; what becomes of the connection is not modelled.
- ServerMachine.CommandsAlwaysAuthorised: a broadcast reaches an arbitrary set of sessions; which ones is the registry's theorem.
- Metrics collection on Windows, timers and worker threads; a collected snapshot is a step of the environment.
- Execution of commands on the client, whose slot is also connected twice; a restart is a step of the environment.
- The user interface and both `main` functions, apart from the second connection of the ACK slot.
- Thread-pool sizing and unsynchronised reads of a session's node name.
- `listNodeNames`, `latestRawPayloadForNode` and `getUserNodeName`: plain selections.
- `count` of the outbox: its meaning is `OutboxTheorems.CountIsBacklog`; the plain selection itself is not a method of the model.
- `AuthService`, which delegates to the repository.
