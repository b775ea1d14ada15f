# Distributed chat: verified model

A Dafny 4.11 model of the parts of the chat server where state is kept in two places at once and has to stay
consistent: the message store and its log, the mesh of nodes and its leader election, the rate limiter, login
lockout, the two text formats of the crypto code, the books a node keeps about its clients, and the terminal
client as a replica of the server. `dafny verify dfyconfig.toml` checks everything.

Code that updates state in place is a class whose methods are proved equal to a function on values
(`Storage`, `Limiter`, `Authenticator`, `Node`, `Model`); the laws are lemmas about those functions, over every
input and every run.

| files | subject |
|---|---|
| `Protocol`, `StoreModel`, `StoreRuns`, `StoreGuards`, `StoreLaws`, `Storage`, `Commands` | messages, the store, its log, paging, compaction, `/edit`, `/delete`, `/react` |
| `Mesh`, `Elections`, `Connections`, `Presence`, `Node` | dissemination, leadership, client bookkeeping, who is elsewhere, one node's event loop |
| `RateLimit`, `Limiter` | token bucket |
| `Lockout`, `Authenticator`, `Text`, `Base64`, `HashText`, `Envelope` | logins, password hash text, encrypted envelope |
| `ClientView`, `ClientModel`, `Conversations`, `Sidebar` | the terminal client's state, what it lists where, navigation, unread counts |
| `Settling`, `ChannelText`, `Replica`, `Reactions`, `Overtaking` | agreement of the client with the store, events delayed and out of order included |
| `Sequences`, `Options` | filters, suffixes and subsequences; values that may be missing |

Time, randomness and generated ids are parameters. Times of the limiter are reals, those of logins and peers are
whole nanoseconds. Message contents, passwords and names are strings of bytes.

## What turned out conditional

Where the code does not do what its surroundings suggest, the condition under which it does is proved exactly, for
every input and, where states are concerned, over every run; beside it stands a concrete input or run that fails.

- The channel lists agree with the flat list in every state exactly if each edit, deletion and reaction that finds a
  message finds the same copy of it first in the channel's list, or changes nothing, or deletes the oldest of the
  channel's messages in the flat list (`StoreGuards.RunAgreesIff`). Ids that are never reused are enough for that
  (`StoreGuards.FreshGuarded`, `StoreLaws.IndexAgreement`), though not necessary (`StoreGuards.SavedTwice`), and
  `Save` does not look (`StoreLaws.ReusedIdBreaksAgreement`).
- Edits, deletions and reactions are not logged, and the scanner stops at the first line that is too long, so a reload
  restores memory exactly when every message it reads is still in memory as it was logged and memory has no more
  messages than those (`StoreLaws.ReloadRestoresIff`, `StoreLaws.DeletedMessageReturns`). `Save` bounds the content
  but not the line it writes, so a message it accepts can be lost with all later ones (`StoreLaws.UnreadableSave`).
  While only saves run, with distinct ids, a reload restores memory exactly when no message is logged at or behind a
  line that is too long (`StoreLaws.SavesSurviveReload`).
- A reload after compaction restores memory exactly when every written line fits the scanner's limit, and otherwise
  keeps what lies before the first line that does not; edits bound nothing (`StoreLaws.CompactReloadIff`,
  `StoreLaws.CompactReloadKeepsFront`, `StoreLaws.OversizedEditLosesRest`).
- A message broadcast once is saved exactly once at each node exactly if no request of that node for history is
  answered with it; an answer saves it again (`Mesh.ExactlyOnceIff`, `Mesh.AnswerSavesAgain`). The program itself never
  asks, but it relays such a request from a client.
- The page slice stays in range for a negative limit or offset only in some cases; the HTTP handler passes both
  through as they come (`Storage.PageDefinedIff`, `Storage.NegativeLimitPanics`).
- A round of ticks yields one leader exactly when every other node holds a higher port, which is so after every node
  but the largest was dialled by a higher one. A link dialled by its lower end leaves two leaders for good
  (`Elections.OneLeaderIff`, `Elections.ClusterElects`, `Elections.TwoLeaders`, `Elections.TwoLeadersForever`).
- The acknowledged leader can go down: a claim is compared with the own port, not with the current leader
  (`Elections.AcknowledgedLeaderRisesIff`, `Elections.AcknowledgedLeaderFalls`).
- The books about the clients stay in order exactly if no `/channel join` or `switch` is handled before its connection
  was registered or after it was unregistered; after, that stores a registration without a queue, whose unregistration
  closes a nil channel
  (`Connections.BooksBalance`, `Connections.ChannelKeepsIff`, `Connections.LateChannelCommandPanics`).
- Sweeping idle buckets is unobservable exactly when `rate * maxAge >= burst` (`RateLimit.CleanupUnobservableIff`,
  `RateLimit.ShortAgeObservable`).
- Failed logins never age: a name is locked exactly for the lockout after every fifth failure since its last success,
  however long the five took (`Lockout.LockedIff`). So a name can be locked before it is registered
  (`Authenticator.RegisteredLogsInUnlessLocked`).
- A ban keeps a name out exactly until its status is next set, which the `/status` command of a session that is still
  open does too (`Lockout.BannedIff`, `Lockout.BanShutsOut`).
- The notices of joining and leaving name a user to other nodes exactly if its name is one word
  (`Presence.NoticeNamesIff`).
- A user name read back from `user:password` is the one written exactly if it has no colon
  (`Authenticator.CredentialsRoundTripIff`).
- Unpadded Base64 texts whose last symbol has leftover bits decode too (`Base64.CanonicalIff`, `Base64.NotCanonical`).
- A client's list of a channel ends, once waiting events have arrived, in the store's chats and images in every state
  exactly if each step meets a guard (`Replica.ReplicaAgreesIff`). Guards fail in four ways. A client hands in an edit
  or removal event of its own making, which is shown and not applied. An edit or removal whose
  message was evicted from the flat list but is still in its channel's list is dropped by the store and shown all the
  same (`Overtaking.EvictedEdit`). Peers' posts, saved and shown by different goroutines, are shown in another order
  than saved (`Replica.PostsShownIff`, `Overtaking.PostsOvertake`). Events about one message overtake each other
  (`Replica.EditsShownIff`, `Overtaking.EditsOvertakeIff`). The client also shows what the store never held: server
  notices, and posts that `Save` refused for their length but that were broadcast all the same; the comparison leaves
  these out. Users listed under an emoji agree in every state exactly under a guard of their own
  (`Reactions.ReactionsAgreeIff`); a repeated reaction, which the store refuses but reports as done, is counted again by
  clients (`Overtaking.ReactionsAgreeIff`).
- A comment in `internal/crypto/crypto.go` speaks of a 44-byte minimum; the code checks for 16 bytes of salt and then
  12 of nonce, and leaves the rest to the cipher. The model follows the code.

## Model

| member | source | states |
|---|---|---|
| Storage.Storage.constructor | internal/storage/storage.go:25-40 | a store opened on a log starts with empty memory and that log |
| Storage.Storage.Save | internal/storage/storage.go:49-83 | the state after a save: both lists and the log gain the message, its missing id generated and its missing channel named, each list evicting its own oldest; a content of more than a mebibyte changes nothing and is refused |
| Storage.Storage.GetMessageByID | internal/storage/storage.go:185-196 | returns the newest message of that id in the flat list, or none |
| Storage.Storage.UpdateMessage | internal/storage/storage.go:199-219 | the first match in the flat list and the first match in that message's channel list are edited, nothing else; false without a match |
| Storage.Storage.DeleteMessage | internal/storage/storage.go:223-245 | the first match in each of the two lists goes, order kept; false without a match |
| Storage.Storage.AddReaction | internal/storage/storage.go:248-279 | the user is added once per emoji, behind those before, and the channel copy takes over the flat copy's user list; success exactly if the id is there, a repeat included |
| Storage.Storage.CompactAOF | internal/storage/storage.go:283-330 | the log becomes exactly the flat list; through all intermediate moments the file is first the whole old log, then the whole new one |
| Storage.Storage.LoadAOF | internal/storage/storage.go:333-373 | memory becomes the newest readable messages of the log, grouped by channel; the error tells whether some line was too long |
| Storage.ScanLog | internal/storage/storage.go:345-357 | undecodable lines are skipped, the first oversized one ends the scan, and the error is raised exactly if some line does not fit |
| Storage.GroupByChannel | internal/storage/storage.go:364-368 | the loop builds the index that puts each message on its channel's list |
| Storage.Storage.GetChannelMessages | internal/storage/storage.go:138-164 | returns the page of the channel's list and its length, or shows that the slice would panic |
| Storage.Storage.GetRecentMessages | internal/storage/storage.go:119-135 | the newest messages of the flat list, at most that many; a negative count panics unless the list is empty |
| Storage.Storage.GetMessagesAfter | internal/storage/storage.go:105-116 | exactly the messages later than the time, in order |
| Storage.PageDefinedIff | internal/storage/storage.go:149-162 | exactly which limits and offsets keep the slice bounds in order |
| Storage.PageIs | internal/storage/storage.go:138-164 | a page is the newest limit messages of all but the newest offset ones, or nothing behind the end; a negative offset makes it shorter |
| Storage.NegativeLimitPanics | internal/api/api.go:192-205 | a limit of -1 with offset 0, which the handler passes on, makes the slice of any channel with messages panic |
| Storage.PagesTile | internal/storage/storage.go:138-164 | for any limit above 0 consecutive pages joined oldest first are the history, without gap or repeat, each of at most limit messages |
| Storage.CrashDuringCompaction | internal/storage/storage.go:283-330 | after a crash at any moment of a compaction, a restart recovers what the old log gives or what memory held, up to the first message whose line is too long |
| StoreModel.ScansAgree | internal/storage/storage.go:189-203 | with distinct ids the backward lookup and the forward scans of edit and delete stop at the same element |
| StoreModel.ReadableIsPrefix | internal/storage/storage.go:347-357 | what the scanner reads is a prefix of the logged messages, and all of them if every line fits |
| StoreModel.ReadableIsAllIff | internal/storage/storage.go:347-357 | the scanner reads every logged message exactly if none lies at or behind a line that is too long |
| StoreModel.ReadableAllIff | internal/storage/storage.go:347-357 | a log of messages is read completely exactly if every line fits |
| StoreModel.ReadableUpTo | internal/storage/storage.go:347-357 | a log of messages is read exactly up to its first line that does not fit |
| StoreModel.GroupIsFilter | internal/storage/storage.go:364-368 | each rebuilt channel list is the flat list filtered to the channel |
| Protocol.EditFirstIsEdit | internal/storage/storage.go:203-216 | with distinct ids editing the first match edits every message of that id and no other |
| Protocol.RemoveFirstIsFilter | internal/storage/storage.go:229-243 | with distinct ids removing the first match keeps exactly the messages of other ids, in order |
| StoreRuns.SaveKeeps | internal/storage/storage.go:49-83 | saving a fresh id keeps the whole invariant, through eviction in either list |
| StoreRuns.UpdateKeeps | internal/storage/storage.go:199-219 | an edit keeps the invariant: both copies change alike |
| StoreRuns.DeleteKeeps | internal/storage/storage.go:223-245 | a deletion keeps the invariant |
| StoreRuns.ReactKeeps | internal/storage/storage.go:248-279 | a reaction keeps the invariant: both copies end with the same user list |
| StoreRuns.CopyReactionIsReact | internal/storage/storage.go:263-274 | copying the flat copy's user list into the channel copy is the same as reacting there |
| StoreRuns.CompactKeeps | internal/storage/storage.go:283-330 | compaction keeps the invariant |
| StoreRuns.LoadKeeps | internal/storage/storage.go:333-373 | a reload, complete or cut short, keeps the invariant |
| StoreRuns.RunKeeps | internal/storage/storage.go:49-373 | every run of all six operations that saves only unused ids keeps capacity, distinct ids, index agreement in every field, and memory as a subsequence of the log |
| StoreRuns.OpeningHolds | internal/storage/storage.go:25-40 | a store opened on any log with distinct ids starts with the invariant |
| StoreGuards.UpdateAgreesIff | internal/storage/storage.go:199-219 | in any state in agreement, ids reused or not, an edit keeps it exactly if the channel list's first copy is one that the flat list still has, or the edit changes nothing |
| StoreGuards.DeleteAgreesIff | internal/storage/storage.go:223-245 | a deletion keeps it exactly if the channel list's first copy is one that the flat list still has, or the deleted message is the oldest of its channel there |
| StoreGuards.ReactAgreesIff | internal/storage/storage.go:248-279 | a reaction keeps it exactly if the channel list's first copy is one that the flat list still has, or the user had reacted so |
| StoreGuards.RunAgreesIff | internal/storage/storage.go:49-373 | over every run of all six operations the lists agree in every state exactly if every step meets its guard |
| StoreGuards.FreshGuarded | internal/storage/storage.go:49-373 | runs that save only unused ids meet every guard |
| StoreGuards.SavedTwice | internal/storage/storage.go:56-69 | a run that reuses an id and meets every guard |
| StoreLaws.IndexAgreement | internal/storage/storage.go:49-373 | after any run with fresh ids the flat list filtered to a channel is a suffix of that channel's list, both lists are within capacity with distinct ids, and the flat list's ids are a subsequence of the log's |
| StoreLaws.ReusedIdBreaksAgreement | internal/storage/storage.go:56-69 | a five-operation run at capacity 2 in which a reused id destroys the agreement |
| StoreLaws.SavesReplay | internal/storage/storage.go:65-80 | while only saves run, the flat list stays the newest logged messages |
| StoreLaws.LogGrows | internal/storage/storage.go:49-83 | compaction aside, every run adds to the log exactly the messages saved, in order and as they came but for a missing id or channel, and never those above a mebibyte |
| StoreLaws.SavesSurviveReload | internal/storage/storage.go:350-369 | after such a run a reload restores the flat list if the scanner reaches every message, with distinct ids only then, and rebuilds every channel list as its filter |
| StoreLaws.MatchesAfterCompactOrLoad | internal/storage/storage.go:283-373 | compaction, and a reload that reaches every message, establish that memory is the newest part of the log |
| StoreLaws.ReloadRestoresIff | internal/storage/storage.go:333-373 | in every reachable state a reload is the identity on the flat list exactly if the messages it reads are all in memory unaltered and memory has no more than those |
| StoreLaws.CompleteReloadRestoresIff | internal/storage/storage.go:333-373 | when the scanner reaches every message, exactly if the newest logged ones are all in memory unaltered |
| StoreLaws.UnreadableSave | internal/storage/storage.go:61-78 | capacity 2: save A, save B with an accepted text and a line that is too long; memory and log hold both, and a reload brings A alone |
| StoreLaws.DeletedMessageReturns | internal/storage/storage.go:223-245 | capacity 2: save A, save B, delete B, save C leaves A and C in memory, and a reload brings B and C |
| StoreLaws.CompactReloadIff | internal/storage/storage.go:283-373 | compacting and reloading is the identity on the flat list exactly if every written line fits the scanner |
| StoreLaws.CompactReloadKeepsFront | internal/storage/storage.go:283-373 | in any case it keeps exactly the messages before the first whose line is too long |
| StoreLaws.OversizedEditLosesRest | internal/storage/storage.go:199-219 | save A, B, C, edit B to an oversized text, compact, reload: only A is left |
| StoreLaws.CompactReloadShortensIff | internal/storage/storage.go:283-373 | each channel list is replaced by a suffix of itself exactly if, of its messages in memory, all survive or none |
| StoreLaws.BornGrows | internal/storage/storage.go:49-57 | an id keeps the sender and channel it was first saved with through every run |
| StoreLaws.UpdateHitsTheLookup | internal/storage/storage.go:185-219 | the edited element is the one the lookup returned, and an edit fails exactly if the lookup does |
| StoreLaws.DeleteRemovesTheLookup | internal/storage/storage.go:185-245 | the removed element is the one the lookup returned, the rest keeps its order, and no message of that id is left |
| StoreLaws.EditChangesOnlyTheChecked | internal/node/commands.go:71-81 | whatever operations run between the ownership check and the edit, only messages of the checked sender and id change, in any list |
| StoreLaws.DeleteRemovesOnlyTheChecked | internal/node/commands.go:101-114 | whatever operations run between the check and the deletion, at most one message goes from any list, of the checked sender and id, and the rest keep their order |
| StoreLaws.RunClean | internal/storage/storage.go:257-274 | over every run no emoji's user list holds a user twice |
| Commands.CheckEdit | internal/node/commands.go:71-79 | not found, not allowed, or the sender's own message as it is |
| Commands.FinishEdit | internal/node/commands.go:81-91 | in whatever state the store is by then the edit is applied, and announced, field by field, even if it found nothing |
| Commands.Edit | internal/node/commands.go:71-91 | with nothing in between: refusals, the announced event and the change, of an own message, only that one, in every list |
| Commands.CheckDelete | internal/node/commands.go:101-112 | not found, not allowed, or the message for its sender or an admin |
| Commands.FinishDelete | internal/node/commands.go:114-123 | in whatever state the store is by then the deletion is applied, and announced, field by field, even if it found nothing |
| Commands.Delete | internal/node/commands.go:101-123 | with nothing in between: refusals, the announced event and the change, in which exactly that element goes |
| Commands.React | internal/node/commands.go:134-146 | afterwards the message lists the user, nothing else changed, and the event is announced exactly if the message exists |
| Mesh.ExactlyOnceIff | internal/node/peer.go:185-233 | in any run over a full mesh, for a chat or image broadcast once, copies saved at a node plus copies on their way there are at least 1, and exactly 1 exactly if no request of that node for history was answered with it |
| Mesh.ExactlyOnce | internal/node/node.go:269-281 | in any run without requests for history they are exactly 1 |
| Mesh.Disseminated | internal/node/node.go:278-281 | in any run and for every kind but requests, deliveries at a node plus copies on their way there grow by exactly the broadcasts of the other nodes, direct messages and typing notices excepted, and the copies answered to it |
| Mesh.RequestsReach | internal/node/peer.go:185-198 | in any run requests for history answered at a node plus those on their way there grow by exactly the requests the asker broadcast, to every other node |
| Mesh.LogsGrow | internal/node/peer.go:212-247 | in any run each node's log gains a message exactly as often as the node broadcast it, being a chat, image or direct message, or received it, being a chat, image, join or leave, unless it exceeds a mebibyte |
| Mesh.AnswerSavesAgain | internal/node/peer.go:185-233 | from any state, an answer that holds a message and its delivery save the message once more, saved before or not |
| Mesh.NextConserves | internal/node/peer.go:52-67 | every step, in any delivery order, changes saved plus travelling copies at a node by exactly the copies broadcast and answered |
| Mesh.RunConserves | internal/node/peer.go:149-249 | the conservation law over every run |
| Mesh.WorkShrinks | internal/node/peer.go:185-247 | each broadcast, delivery and answer strictly lowers the outstanding work: nothing received is sent on |
| Mesh.Drains | internal/node/peer.go:52-67 | without new submissions the broadcasts, deliveries and answers of any run are bounded by the work at its start |
| Mesh.NotStuck | internal/node/node.go:269-281 | while anything is queued or travelling some broadcast, delivery or answer can happen |
| Mesh.NodesAgreeAtQuiescenceIff | internal/node/peer.go:185-247 | once nothing is queued or travelling each node has saved each chat and image as often as broadcast and answered to it, so two nodes equally often exactly if answered equally often |
| Mesh.LocalKindsStay | internal/node/node.go:278-281 | typing notices never travel between nodes, and direct messages only in answers to requests for history |
| Mesh.InjectedSubmittable | internal/node/node.go:175-186 | an injected message has an id and a channel; an id, channel or time it came with is kept, and so is all else |
| Elections.ParsePrinted | internal/node/peer.go:172-173 | a printed port parses back to itself, or to 0 if it does not fit 64 bits |
| Elections.PortIsWritten | internal/node/peer.go:172-173 | a port other than 0 is the value of a numeral, sign and leading blanks included, that the text starts with |
| Elections.StartHolds | internal/node/node.go:77-96 | newly started nodes have the invariant |
| Elections.RunInv | internal/node/peer.go:109-183 | over every run a leader acknowledges itself, and an acknowledged leader is 0 or a real node of at least the own port |
| Elections.LargestTicks | internal/node/peer.go:116-135 | the largest node leads after its tick |
| Elections.LargestStaysLeader | internal/node/peer.go:109-183 | once leader the largest node is leader in every later state |
| Elections.OneLeaderEmerges | internal/node/peer.go:109-183 | while every other node holds a higher port, ticked nodes lead exactly if they are the largest; once all ticked there is one leader for as long as that lasts |
| Elections.DiallerKnown | internal/node/client.go:98-106 | after any run in which a node dialled another and the connection stayed, the other knows its port |
| Elections.EntriesAre | internal/node/peer.go:153-161 | over every run a node holds a port for a connection exactly if the last acceptance or disconnection of it was an acceptance, then the one dialled from, or there was none and it held that port at the start |
| Elections.OutrankedIff | internal/node/peer.go:117-123 | over every run a node is outranked exactly if some connection accepted from a higher port, or held with one from the start, has not gone since |
| Elections.LeadsAfterTickIff | internal/node/peer.go:116-136 | over every run a node leads after its tick exactly if no higher port is connected to it any more: failover |
| Elections.DialledDownwardsOutranks | internal/node/client.go:98-106 | after any run in which each node but the largest was dialled by a higher one that stayed connected, all but the largest are outranked |
| Elections.ClusterElects | start_cluster.sh:23-34 | after such a run, as the script dials, a round of ticks leaves the largest node the only leader |
| Elections.TicksDecide | internal/node/peer.go:116-141 | after any ticks a node that ticked leads exactly if it holds no higher port |
| Elections.OneLeaderIff | internal/node/peer.go:109-146 | a round of ticks makes the largest node the only leader exactly if every other node holds a higher port |
| Elections.TwoLeaders | internal/node/client.go:98-106 | for any two ports a link dialled upwards, and a run after which both nodes lead |
| Elections.TwoLeadersForever | internal/node/peer.go:125-136 | no further ticks change that state |
| Elections.AcknowledgedLeaderRisesIff | internal/node/peer.go:116-183 | over every run the leader a node acknowledges never falls exactly if no claim above the own port but below it is heard and the node does not take the lead below it |
| Elections.AcknowledgedLeaderFalls | internal/node/peer.go:171-183 | a run after which a node that acknowledged a leader acknowledges a lower one |
| Connections.StartHolds | internal/node/node.go:77-96 | a node without clients has its books in order |
| Connections.BooksBalance | internal/node/node.go:226-267 | over every interleaving no queue is closed twice, nothing panics, queues of clients are open, and gauge, map size and joins minus leaves agree in every state, exactly if each channel command is handled while its connection is registered |
| Connections.UnregisterIdempotent | internal/node/node.go:246-267 | a second unregistration of a connection, as a session over SSH causes, changes nothing |
| Connections.UnregisterAnnounces | internal/node/node.go:246-267 | an unregistration closes exactly the queue of that connection, removes it alone, lowers the gauge and announces the leave exactly if the user had a name |
| Connections.RegisteredAs | internal/node/node.go:229-232 | over every run a connection's user, queue and channel are those of its last registration, its channel that of the last command since, until it is unregistered |
| Connections.BroadcastReaches | internal/node/client.go:16-42 | a broadcast touches no closed queue, and a client's queue gains the message once exactly if it has room and, of a direct message, its user is an end, of any other, the channel is empty or the user a member of it or the message a join or leave |
| Connections.OnlyOwnMessages | internal/node/client.go:20-34 | over every run from the start all direct messages ever put on a client's queue have its user as sender or recipient, and all others name no channel, or one that the user is a member of, or are joins or leaves |
| Connections.QueueInOrder | internal/node/client.go:36-53 | over every run what was written from a queue followed by what waits in it is exactly what was put on it, in order |
| Connections.ChannelKeepsIff | internal/node/commands.go:314-362 | storing a channel back keeps the books exactly if the connection is still registered |
| Connections.LateChannelCommandPanics | internal/node/commands.go:325-328 | otherwise, and only then, the next unregistration closes a nil queue |
| Node.Node.constructor | internal/node/node.go:68-96 | a new node has no clients, no peers and no leader, and has closed and announced nothing |
| Node.Node.RegisterClient | internal/node/node.go:229-244 | the registration step on the node's own fields, and the notice of joining handed to the broadcast loop |
| Node.Node.UnregisterClient | internal/node/node.go:246-267 | the unregistration step on the node's own fields, stray ones included, and the notice of leaving of a client with a name; only a queue that is closed or unset makes it panic |
| Node.PushToClients | internal/node/client.go:20-41 | serving clients in any map order pushes the message once on exactly the queues due it |
| Node.Node.HandleBroadcast | internal/node/node.go:269-281 | chats, direct messages and images are saved, every message is shown, and it goes to every peer link unless it is a direct message or a typing notice |
| Node.Node.BroadcastToPeers | internal/node/peer.go:52-67 | each peer link is named once |
| Node.Node.AcceptPeer | internal/node/client.go:98-106 | the accepting side records the time and the dialler's port for the connection, and nothing else |
| Node.Node.DialPeer | internal/node/peer.go:41-43 | the link is relayed on from then on and falls to the monitor exactly after the timeout, other links stay as they were, and the election state does not change, so the dialler learns no port |
| Node.Node.PeerDisconnected | internal/node/peer.go:153-161 | a broken link takes its two entries with it, time and port, and no others |
| Node.Node.Monitor | internal/node/peer.go:85-106 | in any map order exactly the peers silent beyond the timeout lose both entries |
| Node.Node.ElectionTick | internal/node/peer.go:116-141 | the loop with its early exit: afterwards the node leads exactly if it holds no higher port, and it claims its own port, to itself and to others, exactly when newly leading |
| Node.Node.StorePeerMessage | internal/node/peer.go:212-245 | kind by kind what the store does with a peer's message, with an id generated if there is none, and the list of users elsewhere |
| Node.Node.HandleInternal | internal/node/peer.go:167-210 | claims go to the election step, a request for history is answered with exactly the later messages, and a list of users is added |
| Node.Node.HandlePeerMessage | internal/node/peer.go:163-248 | each received message is stored by kind and shown once or handled between nodes; nothing is sent but the history that the peer asked for, back to it |
| Presence.SubjectIff | internal/node/peer.go:212-230 | the user taken from a notice is the word between the first two blanks, or behind the only one |
| Presence.NoticeNamesIff | internal/node/node.go:240-260 | the notices of a user that joins or leaves name it to other nodes exactly if its name is one word |
| Presence.ListedIff | internal/node/peer.go:199-230 | over every run a user counts as connected elsewhere exactly if, since a notice of joining or a list that named it, no notice of leaving did |
| RateLimit.GreedyConforms | internal/ratelimit/ratelimit.go:45-57 | the answers of the bucket keep the bound burst plus rate times elapsed between any two requests |
| RateLimit.GreedyIsOptimal | internal/ratelimit/ratelimit.go:45-57 | no other answers that keep the bound have admitted more requests at any prefix |
| RateLimit.LimiterIsGreedy | internal/ratelimit/ratelimit.go:31-58 | with other users and adequate sweeps interleaved, a user's answers are those of one bucket on that user's own times |
| RateLimit.LimiterIsOptimal | internal/ratelimit/ratelimit.go:31-58 | optimality for every user in every such run |
| RateLimit.TokensInRange | internal/ratelimit/ratelimit.go:45-57 | over every run tokens stay between 0 and burst |
| RateLimit.WindowBound | internal/ratelimit/ratelimit.go:31-58 | for every user, run and interval, admitted requests are at most burst plus rate times its length |
| RateLimit.SteadyAdmitted | internal/ratelimit/ratelimit.go:45-57 | a user that leaves at least the time of one token between any two requests is never refused, whatever others do and however often idle buckets are swept |
| RateLimit.CleanupUnobservable | internal/ratelimit/ratelimit.go:61-71 | sweeps of an adequate age inserted anywhere change no answer |
| RateLimit.ShortAgeObservable | internal/ratelimit/ratelimit.go:61-71 | with any shorter age there is a run in which a sweep changes an answer |
| RateLimit.CleanupUnobservableIff | internal/ratelimit/ratelimit.go:61-71 | an age goes unnoticed in all runs exactly if an idle bucket fills up within it |
| RateLimit.BurstAdmitted | internal/ratelimit/ratelimit.go:53-57 | as many requests at one instant as there are tokens are all admitted and use them up |
| RateLimit.BurstRefused | internal/ratelimit/ratelimit.go:53-57 | more requests than tokens at one instant are not all admitted |
| Limiter.Bucket.Take | internal/ratelimit/ratelimit.go:45-57 | refill, cap, decision and withdrawal on the bucket's own fields |
| Limiter.Limiter.constructor | internal/ratelimit/ratelimit.go:22-28 | no buckets, the given rate and burst |
| Limiter.Limiter.Allow | internal/ratelimit/ratelimit.go:31-58 | only the user's bucket changes, a missing one being made full, and the answer is the token bucket's |
| Limiter.Limiter.Cleanup | internal/ratelimit/ratelimit.go:61-71 | in any map order exactly the buckets idle longer than the age go |
| Limiter.NodeSettings | internal/node/node.go:86-121 | with 10 per second, bursts of 20 and ten minutes sweeps go unnoticed, and no interval admits more than 20 plus 10 per second |
| Lockout.CheckKeeps | internal/auth/auth.go:76-122 | a check keeps the tie between the counter, the lock and the recorded failures, every fifth of which set the lock |
| Lockout.RunKeeps | internal/auth/auth.go:76-137 | over every run the counter and the failures differ by a multiple of five, the last lock counts from the last fifth failure, and six failures in a row span the lockout |
| Lockout.LockedIff | internal/auth/auth.go:76-137 | in every reachable state a name is locked exactly if its failures since the last success are a positive multiple of five and the lockout has not passed since the last |
| Lockout.LockoutBound | internal/auth/auth.go:126-137 | between successful logins any half-open fifteen minutes hold at most five recorded failures, and the count never exceeds five |
| Lockout.LockHolds | internal/auth/auth.go:76-90 | until the lock runs out no check of the name succeeds and nothing lifts the lock |
| Lockout.FiveFailuresShutOut | internal/auth/auth.go:76-137 | from the fifth failure, and each further fifth, until the lockout has passed no check of the name succeeds, even with the right password, however far apart the failures lie |
| Lockout.CheckSucceedsIff | internal/auth/auth.go:76-122 | a check succeeds exactly if the name is not locked, is registered, is not banned and its hash accepts the password; it then changes the status and the time last seen, otherwise no profile |
| Lockout.FailureCountedIff | internal/auth/auth.go:84-137 | a failure is counted exactly if the name is not locked and is unknown, or is not banned and its hash refuses the password; from the fifth on it locks for fifteen minutes |
| Lockout.StatusSet | internal/auth/auth.go:202-212 | setting a status changes that and the time last seen, of that user only |
| Lockout.BannedIff | internal/auth/auth.go:101-104 | over every run a registered name is banned exactly if the last status set for it was the ban, or none was set and it was banned before |
| Lockout.BannedStaysOut | internal/auth/auth.go:101-104 | from a state in which a name is banned, through any operations that do not set its status, no check of it succeeds and it stays banned |
| Lockout.BanShutsOut | internal/node/commands.go:423 | after a ban no check of the name succeeds until its status is set again |
| Authenticator.Authenticator.constructor | internal/auth/auth.go:53-64 | the loaded users and no failed attempts |
| Authenticator.Authenticator.Check | internal/auth/auth.go:76-122 | the check step on the authenticator's own maps: lock, expired lock, unknown name, ban, bad hash, match, mismatch |
| Authenticator.Authenticator.RecordFailedAttempt | internal/auth/auth.go:126-137 | the counter goes up and, from five on, the lock is set anew |
| Authenticator.Authenticator.Register | internal/auth/auth.go:140-176 | refusals, and the new profile; the first user is the admin |
| Lockout.RegisterSucceedsIff | internal/auth/auth.go:140-158 | a registration succeeds exactly if the name is free and two to thirty-two letters, digits, dashes and underscores, and the password has four characters |
| Lockout.RegisterAdds | internal/auth/auth.go:161-172 | it then adds exactly that profile, offline, under its own name, an admin exactly if it is the first |
| Lockout.AdminIsFirst | internal/auth/auth.go:161-172 | over every run from an empty user file the only admin is the first that registered |
| Authenticator.RegisteredLogsInUnlessLocked | internal/auth/auth.go:76-176 | a name just registered logs in with its credentials text exactly unless it is locked |
| Authenticator.CredentialsRoundTripIff | internal/auth/auth.go:310-316 | credentials text reads back as joined exactly if the name has no colon; a text without a colon reads as empty credentials |
| HashText.HashSplits | internal/auth/auth.go:340-352 | the printed hash splits at its dollar signs into exactly the pieces printed, version 19 and the parameters 65536, 1 and 4 among them |
| HashText.ScanPrintedParams | internal/auth/auth.go:366-372 | printed parameters, whatever follows, scan back exactly if they are within the scanned integer widths |
| HashText.UsableIff | internal/auth/auth.go:346-384 | checking a password has an answer exactly for texts of six pieces with the right name and version, scannable parameters and decodable salt and key |
| HashText.HashRoundTrip | internal/auth/auth.go:329-389 | a printed hash is always usable, accepts its own password, and accepts another exactly if its key is the same |
| Text.SplitStep | internal/auth/auth.go:348 | splitting after a separator-free piece gives that piece and the split of the rest |
| Text.NumberOfPrint | internal/auth/auth.go:340-341 | the value of a printed number is the number |
| Text.ScanPrinted | internal/auth/auth.go:357-372 | scanning a printed number recovers it and stops where its digits end, exactly if it is within the width |
| Text.ScanNumeral | internal/auth/auth.go:357-360 | blanks, a sign and digits scan to their signed value and what follows, unless it exceeds 64 bits |
| Text.ScannedNumeral | internal/auth/auth.go:357-360 | nothing else scans |
| Text.ScanUintIff | internal/auth/auth.go:366-372 | an unsigned number scans from blanks and digits to its value, exactly up to the largest of its type |
| Text.ScannedUint | internal/auth/auth.go:366-372 | nothing else scans as one |
| Base64.RoundTrip | internal/auth/auth.go:337-382 | decoding recovers exactly the encoded bytes, with and without padding |
| Base64.GroupIsNumber | internal/auth/auth.go:337-338 | the four characters of three bytes are the base 64 digits of one number, in the standard alphabet |
| Base64.TailIsNumber | internal/auth/auth.go:337-338 | a last group of one or two bytes is filled up with zero bits, and with padding signs if asked for |
| Base64.DecodesIff | internal/auth/auth.go:374-382 | newlines aside, exactly texts of symbols with no single one left over decode |
| Base64.PaddedDecodesIff | internal/crypto/crypto.go:61-64 | with padding, newlines aside, exactly whole groups of symbols with padding at most in the last two places |
| Base64.NotCanonical | internal/auth/auth.go:374-382 | two texts that decode to the same byte |
| Base64.CanonicalIff | internal/auth/auth.go:374-382 | an unpadded decodable text is the encoding of its bytes exactly if its leftover bits are zero |
| Base64.LeftoverIgnored | internal/auth/auth.go:374-382 | texts that differ only in the leftover bits of the last symbol decode alike |
| Envelope.EnvelopeOpens | internal/crypto/crypto.go:60-100 | decrypting an envelope with any passphrase hands the cipher exactly the salt, nonce and sealed text that were packed |
| Envelope.EnvelopeRoundTrip | internal/crypto/crypto.go:16-100 | the right passphrase recovers every text, for every salt and nonce |
| Envelope.DecryptIs | internal/crypto/crypto.go:60-100 | exactly texts that decode to at least 28 bytes reach the cipher: 16 bytes of salt, 12 of nonce, the rest sealed |
| ClientModel.Model.constructor | internal/tui/model.go:59-83 | a client starts connected on an empty general channel |
| ClientModel.Model.HandleServerMessage | internal/tui/model.go:243-344 | the receive step on the model's own fields, kind by kind: chats decrypted where a key is set and fits, typing users and status notices included |
| ClientModel.OpenedIsWritten | internal/tui/model.go:250-256 | clients with the same key read what was written; without a key, for other kinds, or if the cipher refuses, a message is shown as it came |
| ClientModel.Model.AmendChannels | internal/tui/model.go:289-334 | in any map order every channel has its first match amended |
| ClientModel.AmendFirst | internal/tui/model.go:291-333 | in one list the first message of the id, if any, is edited, removed or reacted to |
| ClientModel.Model.EnsureChannel | internal/tui/model.go:617-624 | a missing channel is made empty and listed unless it is a conversation |
| ClientModel.Model.SwitchToChannel | internal/tui/model.go:626-632 | the channel exists, is active and has nothing unread |
| ClientModel.Model.SidebarItems | internal/tui/model.go:608-615 | channels, then conversations |
| ClientModel.Model.NextChannel | internal/tui/model.go:634-643 | the search loop moves to the row after the active one, wrapping around, and does nothing if it is not listed |
| ClientModel.Model.PrevChannel | internal/tui/model.go:645-654 | the search loop moves to the row before |
| Sequences.Position | internal/tui/model.go:636-637 | the first row of a name, or the number of rows; the first separator of a text, or its length |
| Sidebar.SidebarInOrder | internal/tui/model.go:608-632 | in every run without a typed switch to an unlisted conversation the rows are distinct and include the active one |
| Sidebar.SwitchKeepsIff | internal/tui/model.go:202-208 | a switch keeps the sidebar in order exactly unless it goes to an unlisted conversation |
| Sidebar.NextAndPrevCancel | internal/tui/model.go:634-654 | next and previous undo each other: the same rows, the same row active |
| Sidebar.ForwardsVisitAll | internal/tui/model.go:634-643 | as many nexts as there are rows come back to the start and visit every row |
| Sidebar.UnreadIsNotifiedSinceActive | internal/tui/model.go:243-287 | in every run a channel's unread count is the number of chat, image and direct messages added since it was last active, 0 for the active one |
| Conversations.ListsInOrder | internal/tui/model.go:243-287 | in every run without edits, removals or reactions each list holds exactly the messages received for it, in order: posts of its channel, and direct messages under the name of the other end |
| Conversations.ConversationInOrder | internal/tui/model.go:266-274 | in such a run the list under a user's name is exactly the direct messages received that it sent to this user or this user to it, and posts to a channel called so; under the own name, those to oneself |
| Conversations.ConversationListedIff | internal/tui/model.go:275-287 | in every run a conversation is on the sidebar exactly if a direct message of it was received |
| Conversations.RowsGrow | internal/tui/model.go:608-624 | no step removes or reorders rows of the sidebar; new ones come behind those of their sort |
| Settling.OvertakesIff | internal/node/peer.go:149-248 | when the store's list ends what the client comes to, an event that overtakes the others keeps it so exactly if it was in turn: what it overtakes says nothing else about its message, and no earlier post that stays |
| Settling.FirstInTurn | internal/node/node.go:269-281 | the event of the earliest change is always in turn |
| ChannelText.HandleText | internal/tui/model.go:243-334 | what an event does to one channel's chats and images as the client shows them |
| Replica.NextAgreesIff | internal/node/peer.go:212-247 | in any state in agreement, whatever waits, a step of the store, of the client or of the network keeps a channel in agreement exactly if it meets its guard |
| Replica.RunAgreesIff | internal/node/peer.go:149-249 | over every run from such a state a channel agrees in every state exactly if every step meets its guard |
| Replica.ReplicaAgreesIff | internal/tui/model.go:243-334 | the same from a client that starts empty with the store: posts, edits, removals and reactions, local, a peer's or made up by a client, of known or unknown ids, saved and shown apart and in any order |
| Replica.ReplicaAgreesNow | internal/tui/model.go:243-334 | after such a run, with nothing waiting, the store's chats and images of a channel are the newest part of what the client shows now |
| Replica.OrderlyGuarded | internal/node/commands.go:71-123 | runs whose events arrive in order, and whose edits and removals find their message, meet every guard under any eviction |
| Replica.PostsShownIff | internal/node/peer.go:212-247 | posts of a channel that have all arrived in some order agree exactly if those still stored were shown in the order saved |
| Replica.EditsShownIff | internal/node/commands.go:81-91 | edits of one stored message that have all arrived in some order agree exactly if the last to arrive says what the last to be applied says |
| Reactions.NextSameIff | internal/storage/storage.go:248-279 | in any state in agreement a step keeps the users listed under one emoji of a stored message the same, in the same order, exactly if a reaction is applied and new, a removal finds the message, and what arrives is in turn |
| Reactions.ReactionsAgreeIff | internal/tui/model.go:322-334 | from a client that starts empty with the store, over every run, they are the same in every state exactly if every step meets that guard |
| Overtaking.PostsOvertake | internal/node/peer.go:212-247 | two peers' posts saved in one order and shown in the other: with nothing waiting client and store differ |
| Overtaking.EvictedEdit | internal/node/peer.go:235-247 | capacity 1: a peer's edit of a message evicted from the flat list by another channel's is shown and not stored |
| Overtaking.EditsOvertakeIff | internal/node/commands.go:81-91 | a run in which two commands' edits are shown in the other order agrees in the end exactly if they say the same |
| Overtaking.ReactionsAgreeIff | internal/tui/model.go:322-334 | from any quiet state in which a message is the same here and there, a reaction applied and shown leaves it so exactly if the user had not reacted |

## Left out

- Replica.ReplicaAgreesIff: a client that is a member of its channels and to which no event is dropped for a full queue; reactions have a theorem of their own (`Reactions.ReactionsAgreeIff`); left out of the comparison are server notices and oversized posts, which clients show and the store never held. New messages have new ids.
- Mesh.ExactlyOnceIff: a full mesh with fixed links and no loss; counts copies in the append-only log, so compaction is not a step of this model.
- Mesh.Disseminated: the same full mesh, whose nodes and links stay as they are during a run.
- Connections.OnlyOwnMessages: membership of channels is fixed during a run.
- Conversations.ListsInOrder: runs without edits, removals and reactions; what these do to chats and images is `ChannelText.HandleText`, and to users under an emoji `Reactions.NextSameIff`.
- Elections.RunInv: a client can broadcast a Coordinator message, and the node relays it; here such a message names a port of the mesh. One that names a higher port than any node has would be acknowledged and would depose the largest node.
- Limiter.Limiter.Allow: tokens and times are reals, so float rounding is not modelled.
- Text.ScanPrinted: scans of texts that were not printed by this program skip only ASCII blanks before a number.
- Node.Node.HandlePeerMessage: what a peer's list of users decodes to is a parameter, because JSON is not modelled; all answers to a request for history are sent, as if no send failed.
- Envelope.EnvelopeRoundTrip: AES-GCM and Argon2id are parameters, with only "open undoes seal" assumed of them.
- HashText.HashRoundTrip: Argon2id is a parameter that returns a key of the length asked for; its panic on zero iterations or threads in a corrupt hash text is not modelled.
- Connections.BooksBalance: each registration brings an unregistered connection with a new queue; direct sends by `sendToClient` after it released the lock are not steps.
- TLS, sockets, JSON encoding, SSH sessions, HTTP, metrics other than the client gauge, command-line programs and rendering.
- Failing disk writes, a missing log file, a failed rename and a torn last line.
- Slices that share a backing array and reaction tables shared between copies are values here; so are the login attempts, profiles and channel states that the program keeps behind pointers in maps.
- Integer overflow in the paging arithmetic.
- Search, and the user list sent to a new peer.
- Agreement between nodes about edits, deletions, reactions, joins, leaves and direct messages: it does not hold, since sends are unordered, edits of unknown ids are dropped, and origin and peers save different kinds.
- Channel membership, which is a parameter, and muted users.
- Loading and saving the user file.
- The client's decryption is a parameter; messages it sends and the sidebar cursor are left out.
- Absence of deadlock.
- Timers: ticks, sweeps, compactions and timeouts are steps that may happen at any time.
