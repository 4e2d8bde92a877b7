# Verification of the FAF ICE adapter

The ICE adapter connects a lobby client, a game and the adapters of other players: the client sends
JSON-RPC commands, the game speaks the binary GPGNet protocol, and one relay per remote player keeps
a WebRTC connection alive. This Dafny project models the adapter's state machines and codecs, and the
lobby server that comes with it, and proves properties of whole runs.

| module | models |
|---|---|
| `Bytes`, `Decimal`, `Order` | byte strings and `int32_t`, decimal numerals, iteration order of sets and maps |
| `GpgNetMessage`, `GpgNetConnection` | the GPGNet codec and the accumulate-and-parse loop of a connection |
| `AdapterTasks`, `AdapterView`, `AdapterOrder`, `AdapterMessages`, `AdapterWire`, `AdapterSessions`, `IceAdapter` | game-task queue, relay table and game state; what games are told, word for word, what they get to know, and in which bytes; what the bytes of their connections make of the adapter |
| `LobbyTables`, `LobbyMesh`, `LobbyLaws`, `LobbyServer` | the lobby server's five tables, the peer mesh its commands build, and what each request means for its players |
| `LobbyAdapters`, `LobbyRoles` | the lobby server and the adapters together |
| `Trim`, `JsonFraming`, `JsonStream`, `JsonText`, `JsonReader` | cutting a character stream into JSON objects; writing and reading them |
| `RpcCalls`, `JsonRpc`, `RpcWire` | JSON-RPC 2.0 (sections 4, 4.1 and 5 of its specification): ids, callbacks and responses, and calls through the character streams |
| `AdapterCommands`, `AdapterRequests`, `AdapterNotices` | the adapter's method table, what a request does to adapter and games, and what the client hears |
| `Timer`, `RelayMachine`, `PeerChannel`, `PeerRelay`, `ConnectivityChecker` | the reconnect machine of a relay, and what it does with the messages of the other side |
| `PingLedger`, `Pingtracker` | the test game's record of pings |

Where the program updates objects in place, a class with the same fields has methods that are proved
against functions on values (`State()` is the abstract value of an object); runs are sequences of
events folded over these functions, and the main results are lemmas about all runs. Sockets are logs
of what was written. Time is an integer number of milliseconds. What WebRTC objects report, also
while they are being closed, what the JSON reader makes of a text, and what RPC callbacks do in turn
are parameters.

What the proofs brought to light:

- `trim_whitespace` passes the end position to `substr` as a length. Trailing blanks survive, at most
  as many as there were leading ones (`Trim.TrimExactIff`). Because an unfinished message is trimmed,
  too, a read that ends in a blank inside a JSON string loses it (`JsonStream.BlankAtBoundaryIsLost`).
- The JSON scan does not know escaped quotes (section 7 of RFC 8259); a flat object with an odd number
  of them is not recognised as complete, and what follows is taken for its continuation
  (`JsonText.FlatWrittenObjectIff`, `JsonFraming.OddQuotesNeverComplete`).
- `GPGNetMessage::toBinary` counts chunks of unsupported types but does not write them; the receiver
  takes what follows for them (`GpgNetMessage.MissingChunksAreRead`). If that is a message with a header
  of 2 to 255 letters, nothing is delivered on this connection any more
  (`GpgNetMessage.NextMessageStops`); otherwise a message may be delivered that nobody has sent
  (`GpgNetMessage.ChunkIsSwallowed`, `GpgNetMessage.NobodySentThis`).
- The adapter answers "ok" to sendToGpgNet when no game is connected, and the message is lost
  (`AdapterCommands.OkSend`, `AdapterCommands.OkWithoutGame`).
- A second game beside the first is not told of existing relays, unless the queue still holds them
  all; a peer message forwarded by the client puts game and relays at odds unless it agrees with
  them (`AdapterView.StepKeepsCourseIff`).
- A game that disconnects takes all relays with it and the lobby does not hear of it, so that a mesh
  lasts only as long as no game disconnects (`LobbyAdapters.DisconnectLosesMesh`). Together with
  a host that leaves without any disconnect being sent, two adapters can end up both answering, with
  nobody to offer (`LobbyRoles.BothDoAnswer`; `LobbyAdapters.AdaptersPairedIff` has the exact condition).
- When the checker finds a connection lost that is up, or when an answerer gets a new offer, closing
  the connection is silent, and the relay stays "connected" for the client while a new one is being made
  (`RelayMachine.FlagSurvivesReinit`, `RelayMachine.FlagSurvivesOffer`; exactly then:
  `RelayMachine.FlagAgreesIff`).
- An answer to a connectivity ping that arrives after a failure, when the offerer has no checker, is
  passed to the game (`PeerChannel.LateAnswerReachesGame`; exactly then: `PeerChannel.GameGetsIff`).
- A sendIceMsg from a socket that is not logged in makes that socket player 0 in one of the lobby
  server's tables, which then contradicts the others (`LobbyTables.SendIceKeepsTablesIff`).
- When sending a request fails, its callback is told and the request stays registered, so that the
  callback can run twice (`RpcCalls.InvocationsOfRequest`).
- Tasks that wait are not executed when a game connects, not even disconnects, but at the next command
  that queues a task or the next state report (`IceAdapter.IceAdapter.OnGameConnected`).
- A timer restarted or stopped by its own callback misbehaves (`Timer.FireRegularIff`); the relay's
  guard keeps it out of that case.
- The ping tracker uses a clock that can be set back; an expired ping can then outlive an update
  (`PingLedger.BackwardsClockKeepsExpired`).

Apart from the proofs: the lobby server's hostGame request builds the parameters of the host command
but never appends them (`legacy_testclient/Testserver.cpp:132-138`). The client wants two parameters
(`legacy_testclient/Testclient.cpp:528-531`), so it rejects the command and the host's adapter is not
told to host.

## Model

| member | source | states |
|---|---|---|
| `GpgNetMessage.AppendChunk` | GPGNetMessage.cpp:23-56 | one chunk is written as type byte and payload; unsigned and boolean values as int32, unsupported types not at all, a number outside int32 throws |
| `GpgNetMessage.ToBinary` | GPGNetMessage.cpp:11-58 | the loop produces exactly the encoding of the message, and throws if and only if some number does not fit an int32 |
| `GpgNetMessage.MessageRoundTrip` | GPGNetMessage.cpp:11-58 | parsing an encoded message followed by any bytes gives that message (numbers normalised) and consumes exactly its encoding |
| `GpgNetMessage.ChunksArrive` | GPGNetMessage.cpp:23-56 | what arrives for each chunk of a message: numbers and strings as they are, unsigned numbers as the same number, true as 1 and false as 0 |
| `GpgNetMessage.Layout` | GPGNetMessage.cpp:11-58 | a message with a number, a truth value and a string, byte by byte |
| `GpgNetMessage.StreamRoundTrip` | GPGNetMessage.cpp:74-149 | parsing a concatenation of encodings delivers those messages in order and continues with what follows |
| `GpgNetMessage.DeliveredReencodes` | GPGNetMessage.cpp:93-146 | every message delivered re-encodes to exactly the bytes erased for it |
| `GpgNetMessage.OutcomeExtends` | GPGNetMessage.cpp:81-139 | once a message is complete, has an unsupported type byte or makes the parser throw, no further bytes change that |
| `GpgNetMessage.ProperPrefixWaits` | GPGNetMessage.cpp:81-84 | an encoding cut short anywhere waits; the strict comparison on the first length never hides a complete message |
| `GpgNetMessage.PrefixFree` | GPGNetMessage.cpp:11-58 | no encoding is a proper prefix of another, and equal encodings mean equal messages up to normalisation |
| `GpgNetMessage.DecoderInvertsEncoder` | GPGNetMessage.cpp:74-149 | a message is taken off the buffer if and only if the buffer starts with the encoding of that (normal, supported) message |
| `GpgNetMessage.Completed` | GPGNetMessage.cpp:15-54 | the bytes of a message with an unsupported chunk are a proper prefix of the encoding of a supported one |
| `GpgNetMessage.DeliverableIffSupported` | GPGNetMessage.cpp:15-54 | an encoded message with nothing behind it is delivered by the receiver if all its chunks have supported types, and otherwise waits as incomplete |
| `GpgNetMessage.MissingChunksAreRead` | GPGNetMessage.cpp:105-141 | for any bytes behind a message, the chunks that were counted but not written are read from these bytes: the exact outcome of the parser |
| `GpgNetMessage.NoTypeStopsForGood` | GPGNetMessage.cpp:129-133 | five bytes or more that do not begin with a type end all delivery, whatever they are |
| `GpgNetMessage.NextMessageStops` | GPGNetMessage.cpp:15-54 | in particular any next message with a header of two letters or more (modulo 256), followed by anything |
| `GpgNetMessage.ChunkIsSwallowed` | GPGNetMessage.cpp:105-141 | bytes that begin with a complete chunk are taken for the missing one: a message is delivered that nobody has sent, and parsing goes on behind that chunk |
| `GpgNetMessage.NobodySentThis` | GPGNetMessage.cpp:105-141 | such a pair of messages |
| `GpgNetMessage.NegativeHeaderThrows` | GPGNetMessage.cpp:81-92 | a negative header length throws once a fifth byte is there |
| `GpgNetMessage.NegativeCountThrows` | GPGNetMessage.cpp:93-104 | so does a negative chunk count behind any header |
| `GpgNetMessage.NegativeStringThrows` | GPGNetMessage.cpp:105-128 | and a string of negative length behind any chunks |
| `GpgNetConnection.Handler.ParseChunkAt` | GPGNetMessage.cpp:107-140 | reading one chunk in place at a position agrees with the specification parser on the rest of the buffer |
| `GpgNetConnection.Handler.ParseChunkLoop` | GPGNetMessage.cpp:105-141 | the loop over the announced number of chunks agrees with the specification parser, error exits included |
| `GpgNetConnection.Handler.ParseOnce` | GPGNetMessage.cpp:76-141 | one round of the outer loop: header, count and chunks, or the reason why there is no message yet |
| `GpgNetConnection.Handler.Parse` | GPGNetMessage.cpp:74-149 | the buffer-erasing loop emits all complete messages in order and leaves the rest, or says that it threw |
| `GpgNetConnection.Handler.OnRead` | GPGNetServer.cpp:34-52 | the read loop appends and parses per received piece, stopping at an exception |
| `GpgNetConnection.DrainResumes` | GPGNetMessage.cpp:74-149 | parsing can stop after any bytes and resume with the residue: the outcome is that of parsing everything at once |
| `GpgNetConnection.ChunkingIndependence` | GPGNetServer.cpp:34-52 | for every byte stream and every split into reads, the same messages are delivered in the same order and the same residue waits as in one parse of the whole |
| `GpgNetConnection.SplitsAgree` | GPGNetServer.cpp:34-52 | two splits of the same bytes cannot be told apart |
| `GpgNetConnection.Transport` | GPGNetServer.cpp:21-52 | messages encoded by a sender arrive, one by one and in order, however TCP cuts the bytes |
| `GpgNetConnection.UnsupportedStopsDelivery` | GPGNetMessage.cpp:129-133 | after an unsupported type byte nothing is delivered any more, whatever follows |
| `AdapterView.RelayAppears` | IceAdapter.cpp:65-89 | creating a relay while tasks wait, and queueing its task, adds exactly that peer to what the game will finally know |
| `AdapterView.RelayVanishes` | IceAdapter.cpp:91-105 | removing a relay while tasks wait, and queueing the disconnect, removes exactly that peer from what the game will finally know |
| `AdapterView.EventuallyTold` | IceAdapter.cpp:455-508 | what the waiting tasks will have told the game about one peer, once they have run: decided by whether it has a relay, the last task about it, and whether a disconnect for it waits |
| `AdapterView.ForwardKeepsCourseIff` | IceAdapter.cpp:123-131 | a peer message forwarded by the client keeps the invariant if and only if it agrees with the relays or with what waits for that peer |
| `AdapterView.ConnectingKeepsCourseIff` | GPGNetServer.cpp:175-189 | a game that connects is brought to the relays if and only if it is the only one, or the last waiting task about every relay is to connect |
| `AdapterView.LeavingKeepsCourseIff` | IceAdapter.cpp:519-529 | when a game goes, the others stay in agreement if and only if disconnects wait for all they were told |
| `AdapterView.StepKeepsCourseIff` | IceAdapter.cpp:449-560 | an event keeps the invariant "running the waiting tasks makes the peers told to every game equal to the relays" if and only if it is admissible; commands and messages of games always are |
| `AdapterView.RunStaysOnCourseIff` | IceAdapter.cpp:65-105 | over every interleaving of commands, game messages, connects and disconnects, with any number of games, the invariant holds throughout if and only if every event is admissible when it happens |
| `AdapterView.OrdinaryRunsAreAdmissible` | IceAdapter.cpp:65-105 | every event is admissible when games come one at a time and the client sends no peer messages of its own |
| `AdapterView.DrainedQueueMeansAgreement` | IceAdapter.cpp:455-508 | in admissible runs, whenever the queue is empty, the peers each game was told about are exactly those with a relay |
| `AdapterView.SecondGameKnowsNothing` | IceAdapter.cpp:519-529 | with a second game connected beside the first this fails: the second is not told of existing relays |
| `AdapterView.ForwardedPeerMessageDisagrees` | IceAdapter.cpp:123-131 | with a peer message sent by the client through sendToGpgNet this fails, too |
| `AdapterView.FailuresHappen` | IceAdapter.cpp:455-560 | both happen in runs from the start: a game connects and reports the lobby, a peer is connected, and then a second game comes or a disconnect is forwarded |
| `AdapterView.TryingIsDisciplined` | IceAdapter.cpp:455-508 | after an attempt to execute tasks, the queue is empty, or no game is connected, or its head waits for the lobby |
| `AdapterView.QueueDiscipline` | IceAdapter.cpp:449-508 | in every run, tasks queued are tasks executed followed by tasks waiting, in order; every one was executed with a game connected, lobby tasks in state "Lobby" only |
| `AdapterView.ReportRetries` | IceAdapter.cpp:531-549 | after every one-chunk GameState message the queue is empty, or no game is connected, or its head is no disconnect and the state is not "Lobby"; a report of "Lobby" empties it |
| `AdapterView.RetryingRests` | IceAdapter.cpp:449-508 | the same after every command that queues a task |
| `AdapterView.RunRests` | IceAdapter.cpp:449-560 | in every run this holds, unless a game has connected since the last such event |
| `AdapterMessages.HostIsTold` | GPGNetServer.cpp:136-144 | a game in the lobby, with nothing waiting, gets HostGame with the map |
| `AdapterMessages.JoinIsTold` | IceAdapter.cpp:65-76 | or JoinGame with the local address of the relay, the login and the id of the player |
| `AdapterMessages.ConnectIsTold` | IceAdapter.cpp:78-89 | or ConnectToPeer with the same |
| `AdapterMessages.DisconnectIsTold` | IceAdapter.cpp:91-105 | or DisconnectFromPeer with the id |
| `AdapterMessages.GoneIsNotTold` | IceAdapter.cpp:472-500 | a join or connect whose relay is gone is taken off the queue without a message |
| `AdapterMessages.ModeIsLastSet` | IceAdapter.cpp:107-110 | in every run the init mode is the one set last, or "normal" |
| `AdapterMessages.IdleGameGetsLobby` | IceAdapter.cpp:538-546 | in every run, when a game reports "Idle", every game first gets CreateLobby with that mode as 0 or 1, the port, and the local login and id |
| `AdapterMessages.DisconnectResets` | IceAdapter.cpp:519-529 | at the start and after a disconnect the state is "None" and there are no relays; waiting tasks stay |
| `AdapterMessages.StateIsSaid` | IceAdapter.cpp:533-549 | the state after a report is its only chunk as text |
| `AdapterOrder.MessagesFollowQueueIff` | IceAdapter.cpp:455-508 | in every run, what a game received about tasks is what the tasks executed since its connection sent, in queue order, none left out, doubled or reordered, if and only if the client has forwarded no such message itself |
| `AdapterWire.BytesConveyRelays` | IceAdapter.cpp:455-508 | from commands to bytes and back: in admissible runs whose strings and ports fit the format and whose forwarded messages have supported chunks only, a game that decodes the bytes sent to it, in any pieces, knows exactly the peers with relays once the queue is empty |
| `AdapterWire.UnsupportedForwardSilences` | IceAdapter.cpp:123-131 | behind a forwarded message with an unsupported chunk and a message of the adapter's own, a game gets nothing any more |
| `AdapterSessions.NotificationsAreTheDecodedStreams` | GPGNetServer.cpp:34-52 | in every run, with any number of connections in turn or side by side, any cutting of their bytes and any commands in between: the client is notified of exactly what the connections decode, in order, and each decodes exactly its own bytes |
| `AdapterSessions.ReconnectDropsResidue` | GPGNetServer.cpp:175-206 | a message begun on one connection is not completed by the next, for every message and every cut |
| `AdapterSessions.OpenGamesAreConnected` | GPGNetServer.cpp:175-206 | the open connections are those the adapter writes to |
| `AdapterSessions.GameStateIsLastDecodedReport` | IceAdapter.cpp:519-549 | in every run, the game state is the payload of the last one-chunk GameState message decoded since a game last disconnected, or "None" |
| `AdapterSessions.GameStateFromBytes` | IceAdapter.cpp:519-549 | with one game at a time, it is what the bytes of the present connection say last, however they are cut, or "None" |
| `AdapterSessions.BytesRefineEvents` | GPGNetServer.cpp:34-52 | the adapter behind connections of bytes is, in every run, the adapter of events, on the messages that the connections decode |
| `AdapterSessions.BytesToBytes` | IceAdapter.cpp:455-560 | bytes in, bytes out: BytesConveyRelays for runs in which the games' messages arrive as bytes, in any pieces |
| `AdapterNotices.NotesReachWire` | IceAdapter.cpp:510-560 | in every run, with requests answered and relays reporting in between, the notifications about games on the RPC connection are the adapter's notes, in order, none left out or doubled |
| `AdapterNotices.ConnectionIsAnnounced` | IceAdapter.cpp:510-525 | a game that comes or goes is announced by exactly one request, with "Connected" or "Disconnected" |
| `AdapterNotices.MessageIsAnnounced` | IceAdapter.cpp:550-559 | a message of a game is announced by exactly one request, with its header and the value of each chunk, in order |
| `AdapterNotices.ReportIsAnnounced` | IceAdapter.cpp:582-609 | what a relay reports is announced with the local and the remote id and the message, state or connection |
| `AdapterNotices.ClientHearsDecodedMessages` | IceAdapter.cpp:531-560 | from the games' bytes to the RPC connection: in a run whose game events are what the connections decode and do, the messages passed on to the client are the decoded ones, in order |
| `AdapterWire.GameStateIsLastReport` | IceAdapter.cpp:519-549 | the same over runs of decoded events, commands included |
| `IceAdapter.IceAdapter.constructor` | IceAdapter.cpp:50-53 | the adapter starts without game, tasks and relays, in game state "None" |
| `IceAdapter.IceAdapter.SendMessage` | GPGNetServer.cpp:79-87 | the message goes once to every connected game |
| `IceAdapter.IceAdapter.TryExecuteFront` | IceAdapter.cpp:463-506 | one turn of the task loop: stop at a lobby task outside the lobby, otherwise send what the task asks for (nothing if its relay is gone) and pop it |
| `IceAdapter.IceAdapter.TryExecuteGameTasks` | IceAdapter.cpp:455-508 | the loop executes tasks up to the first that is blocked, and nothing without a connected game |
| `IceAdapter.IceAdapter.QueueGameTask` | IceAdapter.cpp:449-453 | the task is appended and execution attempted |
| `IceAdapter.IceAdapter.CreatePeerRelay` | IceAdapter.cpp:562-622 | a new relay is entered; an existing one is kept |
| `IceAdapter.IceAdapter.HostTheGame` | IceAdapter.cpp:56-63 | queues the host task |
| `IceAdapter.IceAdapter.JoinTheGame` | IceAdapter.cpp:65-76 | creates an answering relay and queues the join task |
| `IceAdapter.IceAdapter.ConnectThePeer` | IceAdapter.cpp:78-89 | creates a relay with the given role and queues the connect task |
| `IceAdapter.IceAdapter.DisconnectThePeer` | IceAdapter.cpp:91-105 | removes the relay and queues the disconnect task; does nothing for an unknown peer |
| `IceAdapter.IceAdapter.SetLobbyInitMode` | IceAdapter.cpp:107-110 | only the init mode changes |
| `IceAdapter.IceAdapter.SendToGpgNet` | IceAdapter.cpp:123-131 | forwards the message to connected games; throws if and only if a game is connected and a number does not fit |
| `IceAdapter.IceAdapter.OnGameConnected` | GPGNetServer.cpp:175-189 | a new connection is entered and the client notified; waiting tasks are not executed yet |
| `IceAdapter.IceAdapter.OnGameDisconnected` | IceAdapter.cpp:519-529 | the connection is removed, relays are cleared, the state becomes "None", the queue is kept |
| `IceAdapter.IceAdapter.OnGpgNetMessage` | IceAdapter.cpp:531-560 | a one-chunk GameState updates the state, answers "Idle" with CreateLobby and retries the queue; every message is passed on |
| `LobbyTables.VariantsRunOut` | legacy_testclient/Testserver.cpp:60-73 | pigeonhole: n logins in use can take at most n numbered variants of a name |
| `LobbyTables.FirstFree` | legacy_testclient/Testserver.cpp:63-72 | the unbounded suffix search ends within the number of logins, at the first free variant |
| `LobbyTables.ChosenLogin` | legacy_testclient/Testserver.cpp:60-73 | the login given to a player is used by nobody else |
| `LobbyTables.FellowsAddressable` | legacy_testclient/Testserver.cpp:299-355 | everybody to whom a leaving player's commands go has a socket: the table lookups never insert a null socket |
| `LobbyTables.Leave` | legacy_testclient/Testserver.cpp:299-355 | a player who left is in no game and hosts none; sockets and logins are as before (the result type adds consistency of all tables) |
| `LobbyLaws.LeaveTakesOut` | legacy_testclient/Testserver.cpp:299-355 | a player who leaves is taken out of all games, its own game ends, and nothing else in the tables changes |
| `LobbyLaws.LeaveUnlinks` | legacy_testclient/Testserver.cpp:299-355 | and it is unlinked from the members of the game it had joined, and from nobody else |
| `LobbyLaws.HostLeftIsTold` | legacy_testclient/Testserver.cpp:305-313 | every member of a game that ends is told whose it was, on its own socket |
| `LobbyLaws.CloseLogsOut` | legacy_testclient/Testserver.cpp:17-29 | when the socket of a player closes, player and socket are gone from every table, and everybody else is as before |
| `LobbyLaws.CloseUnlinks` | legacy_testclient/Testserver.cpp:17-29 | and the player is unlinked from the members of the game it had joined, and nobody else |
| `LobbyLaws.GameListIsCurrent` | legacy_testclient/Testserver.cpp:280-297 | in every reachable state, the last list sent to all sockets has exactly the games there are, under their hosts' logins |
| `LobbyLaws.CommandsNameTheirPlayers` | legacy_testclient/Testserver.cpp:188-247 | in every reachable state, every join and connect command ever sent names a player by that player's login |
| `LobbyLaws.LoginEnters` | legacy_testclient/Testserver.cpp:60-78 | a login gives the next id, on that socket, and in no game; everybody else is as before |
| `LobbyLaws.LoginNames` | legacy_testclient/Testserver.cpp:60-73 | under the name wanted if that is free, and otherwise that name with the least number behind it that makes it so |
| `LobbyLaws.LoginRefused` | legacy_testclient/Testserver.cpp:36-47 | a login changes nothing if and only if the socket has a player or gives no name |
| `LobbyLaws.ReconnectMoves` | legacy_testclient/Testserver.cpp:86-116 | a reconnect moves a known player to the new socket and leaves everybody else; whatever else is asked for changes nothing |
| `LobbyLaws.HostIsTold` | legacy_testclient/Testserver.cpp:118-142 | a player who hosts is alone in its game; the host command goes to its socket, and then the list to all |
| `LobbyLaws.IceMessageArrives` | legacy_testclient/Testserver.cpp:250-277 | an ICE message goes to the socket of the player it is for, with the id of the one it is from, and changes nothing else |
| `LobbyLaws.StrangersMessageArrives` | legacy_testclient/Testserver.cpp:250-277 | one from a stranger goes there with id 0, which the stranger's socket then has |
| `LobbyLaws.ClosedIsServed` | legacy_testclient/Testserver.cpp:17-29 | in every run, a socket that closes is gone, with its player if it had one |
| `LobbyLaws.OpenedIsServed` | legacy_testclient/Testserver.cpp:12-17 | one that opens is there, and all else is as before |
| `LobbyLaws.RequestIsServed` | legacy_testclient/Testserver.cpp:31-247 | every request from a connected socket is served as that request, with what it came with |
| `LobbyLaws.IceIsServed` | legacy_testclient/Testserver.cpp:250-277 | and an ICE message from a player reaches the player it is for |
| `LobbyTables.Joined` | legacy_testclient/Testserver.cpp:178-186 | the member is in the host's game, and all its members have logins |
| `LobbyMesh.PairLinks` | legacy_testclient/Testserver.cpp:188-247 | the two commands sent for a pair create relays on both sides with opposite roles |
| `LobbyMesh.PairUnlinks` | legacy_testclient/Testserver.cpp:324-349 | the two commands sent for a pair remove the relays on both sides |
| `LobbyMesh.EnterLinks` | legacy_testclient/Testserver.cpp:178-249 | entering a game adds exactly the links between the new member and those already there |
| `LobbyMesh.LeaveJoinedUnlinks` | legacy_testclient/Testserver.cpp:317-354 | leaving takes down exactly the links between the player and the members of the game |
| `LobbyMesh.StepKeeps` | legacy_testclient/Testserver.cpp:15-277 | every request and every socket close keeps relays symmetric, games fully meshed and player commands private |
| `LobbyMesh.EveryGameIsAFullMesh` | legacy_testclient/Testserver.cpp:118-249 | in every reachable state relays exist on both sides with exactly one offerer, any two members of a game have them, and no player's command was broadcast |
| `LobbyMesh.LeavingUndoesJoining` | legacy_testclient/Testserver.cpp:157-249 | leaving right after joining restores all tables and removes the links the join made |
| `LobbyMesh.LateCloseIsHarmless` | legacy_testclient/Testserver.cpp:86-116 | closing a socket that a reconnect has replaced changes nothing but the set of sockets |
| `LobbyMesh.OneEntryPerGame` | legacy_testclient/Testserver.cpp:280-288 | the game list has exactly one entry per game, under its host's login |
| `LobbyMesh.MembersOfReachableGames` | legacy_testclient/Testserver.cpp:299-355 | in every reachable state a game contains its host, and every member is logged in on a connected socket and in no other game |
| `LobbyMesh.PlayersAreDistinct` | legacy_testclient/Testserver.cpp:48-78 | in every reachable state different players have different sockets and different logins |
| `LobbyServer.Server.constructor` | legacy_testclient/Testserver.cpp:11-13 | all tables start empty |
| `LobbyServer.Server.GamelistJson` | legacy_testclient/Testserver.cpp:280-288 | the loop builds the map from hosts' logins to games |
| `LobbyServer.Server.SendGamelistToAll` | legacy_testclient/Testserver.cpp:290-297 | the list of all games goes to every socket |
| `LobbyServer.Server.TellHostLeft` | legacy_testclient/Testserver.cpp:305-313 | every member of the ended game is told, in the order of the set |
| `LobbyServer.Server.DisconnectFellows` | legacy_testclient/Testserver.cpp:325-350 | both sides of every pair are sent the disconnect, in the order of the set |
| `LobbyServer.Server.DisconnectPlayerFromGame` | legacy_testclient/Testserver.cpp:299-355 | ends the hosted game and leaves the joined one |
| `LobbyServer.Server.OnDisconnected` | legacy_testclient/Testserver.cpp:17-29 | logs the player of the socket out, if the socket still has one |
| `LobbyServer.Server.LoginExists` | legacy_testclient/Testserver.cpp:48-58 | true if and only if some player has the login |
| `LobbyServer.Server.ChooseLogin` | legacy_testclient/Testserver.cpp:60-73 | the loop finds the first free login, and terminates |
| `LobbyServer.Server.OnLogin` | legacy_testclient/Testserver.cpp:31-84 | new tables and reply of the login request: a name, none, or one that cannot be converted |
| `LobbyServer.Server.OnReconnect` | legacy_testclient/Testserver.cpp:86-116 | new tables and reply of the reconnect request, errors included |
| `LobbyServer.Server.OnHostGame` | legacy_testclient/Testserver.cpp:118-142 | leaves the old game, opens a new one, sends the host command and the list |
| `LobbyServer.Server.OnLeaveGame` | legacy_testclient/Testserver.cpp:144-155 | leaves the game, if logged in |
| `LobbyServer.Server.ConnectHost` | legacy_testclient/Testserver.cpp:188-211 | host and joining player get their two commands |
| `LobbyServer.Server.ConnectFellows` | legacy_testclient/Testserver.cpp:212-248 | every other member and the joining player get their pair of commands |
| `LobbyServer.Server.EnterGame` | legacy_testclient/Testserver.cpp:185-248 | member entered, then all commands |
| `LobbyServer.Server.OnJoinGame` | legacy_testclient/Testserver.cpp:157-249 | new tables and reply of the join request; the old game is left even if the new one is not found |
| `LobbyServer.Server.OnSendIceMsg` | legacy_testclient/Testserver.cpp:250-277 | from any connected socket: the message goes to the remote player with the id the table gives for the sender, or an error is answered |
| `LobbyTables.SendIceKeepsTablesIff` | legacy_testclient/Testserver.cpp:264-276 | the socket tables stay consistent if and only if the sender is logged in or the request is refused |
| `LobbyAdapters.AdapterHasLobbysRelays` | IceAdapter.cpp:519-622 | an adapter that carries out the commands sent to its player has exactly the relays, with the roles, that the commands since its game last disconnected amount to |
| `LobbyAdapters.RelayToFellowIff` | IceAdapter.cpp:519-529 | a member's adapter has a relay to a fellow member if and only if it has carried out a command about it since its game last disconnected |
| `LobbyAdapters.OriginDecides` | IceAdapter.cpp:562-585 | with the first k commands forgotten, the role of a relay is decided by the command that created it or, if that one is forgotten, by the first about that player that is left |
| `LobbyAdapters.AdaptersPairedIff` | legacy_testclient/Testserver.cpp:157-249 | end to end: the adapters of any two members of a game have relays for each other, exactly one of which offers, if and only if each has carried out a command about the other since its game last disconnected and exactly one of the two deciding commands asks for an offer |
| `LobbyAdapters.AdaptersFormMesh` | legacy_testclient/Testserver.cpp:157-249 | in particular if neither game has disconnected since the commands that created these relays |
| `LobbyAdapters.DisconnectLosesMesh` | IceAdapter.cpp:519-529 | a game that disconnects takes all relays with it, whatever commands have been carried out |
| `LobbyRoles.PairedTwice` | legacy_testclient/Testserver.cpp:118-249 | in every reachable state, what two players are sent when one hosts and the other joins, the host leaves, and then they do so the other way round: no disconnect, and the roles turned |
| `LobbyRoles.BothMayAnswer` | IceAdapter.cpp:519-622 | if the first one's game disconnects between the two pairings, both adapters answer and nobody offers |
| `LobbyRoles.BothDoAnswer` | IceAdapter.cpp:519-622 | a run of the lobby from the start, and of the two adapters, in which this happens |
| `LobbyAdapters.GameKnowsLobbysPeers` | IceAdapter.cpp:455-508 | in admissible runs of an adapter, once its queue has drained, its game has been told of exactly the peers that the commands since the last disconnect amount to |
| `LobbyAdapters.GameKnowsFellowIff` | IceAdapter.cpp:455-508 | from the lobby's requests to the game, in admissible runs: it has been told of a fellow member if and only if a command about that one has come since the last disconnect |
| `LobbyAdapters.GameKnowsAllFellows` | IceAdapter.cpp:455-508 | in admissible runs without a disconnect, of every fellow member |
| `Trim.TrimWhitespace` | trim.cpp:5-16 | the result starts with a non-blank and is empty exactly for blank input |
| `Trim.TrimKeepsSomeTrailing` | trim.cpp:15-15 | the result is the true trim followed by the first min(leading, trailing) trailing blanks |
| `Trim.TrimExactIff` | trim.cpp:5-16 | the result is the true trim if and only if the input is blank or has no blanks at one of its ends |
| `Trim.TrimTwice` | trim.cpp:5-16 | applied twice it is the true trim |
| `JsonFraming.FindEnd` | JsonRpc.cpp:98-147 | a message end found is within the text and at a closing brace |
| `JsonFraming.FindEndResumes` | JsonRpc.cpp:94-147 | the scan can be interrupted and resumed anywhere |
| `JsonFraming.NegativeUnreachable` | JsonRpc.cpp:116-121 | the branch for a negative nesting level is unreachable, and a message has at least two characters |
| `JsonFraming.FlatObjectFramedIff` | JsonRpc.cpp:101-145 | an object without inner braces is cut at its end if and only if it contains an even number of double quotes |
| `JsonFraming.OddQuotesNeverComplete` | JsonRpc.cpp:101-104 | with an odd number it is never complete, whatever brace-free text follows |
| `JsonFraming.EscapedQuoteBreaksFraming` | JsonRpc.cpp:101-104 | a concrete object with one escaped quote that is not recognised |
| `JsonFraming.CutOne` | JsonRpc.cpp:78-149 | an object handed on has at least two characters, so the drain loop ends |
| `JsonFraming.Buffer.MessageEnd` | JsonRpc.cpp:94-147 | the scanning loop finds the end of the first message, or that it is unfinished |
| `JsonFraming.Buffer.ParseFromMsgBuffer` | JsonRpc.cpp:78-149 | cuts one message off the buffer, clears the buffer on errors, and returns what the reader made of it |
| `JsonFraming.Buffer.Read` | JsonRpc.cpp:295-322 | the trim-cut-process loop on the old buffer and the new characters |
| `JsonStream.SplitResumes` | JsonRpc.cpp:295-322 | the intended splitting can be interrupted by reads anywhere |
| `JsonStream.TrimKept` | JsonRpc.cpp:310-310 | what a further trim does to a buffer that has lost trailing blanks already |
| `JsonStream.DrainOfKept` | JsonRpc.cpp:308-321 | one drain hands out the intended texts and keeps the intended rest, short of trailing blanks beyond the fewest blanks in front of a message |
| `JsonStream.LosslessRun` | JsonRpc.cpp:295-322 | if no read loses blanks, texts, values and rest are the intended ones |
| `JsonStream.LossyRun` | JsonRpc.cpp:295-322 | if some read does, a text handed out differs, or the unfinished one is already too short for good |
| `JsonStream.ExactIffLossless` | JsonRpc.cpp:295-322 | a stream of complete messages is handed to the reader text by text if and only if no read loses blanks |
| `JsonStream.NoBlankAtBoundary` | JsonRpc.cpp:295-322 | no read loses blanks if none ends in a blank inside an unfinished message |
| `JsonStream.MessagesArriveIff` | JsonRpc.cpp:295-322 | messages between arbitrary blanks, in any pieces: exactly these are extracted if and only if each is framed and no read loses blanks |
| `JsonStream.BlankAtBoundaryIsLost` | JsonRpc.cpp:308-321 | a message whose first read ends in a blank never arrives, whatever is read afterwards: the first text handed out is another |
| `JsonText.QuotedPasses` | JsonRpc.cpp:101-106 | a printed string with an even number of double quotes, and its braces behind an even number of them, does not change the state of the scan |
| `JsonText.WrittenObjectIsFrame` | JsonRpc.cpp:94-145 | every printed object of any nesting with such strings is cut exactly at its end |
| `JsonText.QuoteFreeFieldsAreTame` | JsonRpc.cpp:101-106 | objects without double quotes in their strings are of that kind, whatever their braces |
| `JsonText.FlatWrittenObjectIff` | JsonRpc.cpp:101-145 | a printed flat object with brace-free strings is framed if and only if its strings contain an even number of double quotes |
| `JsonText.ObjectsArriveIff` | JsonRpc.cpp:295-322 | any printed objects between blanks, in any pieces: exactly their texts are extracted, in order, if and only if each is framed and no read loses blanks |
| `JsonText.TameObjectsArriveIff` | JsonRpc.cpp:295-322 | for objects with such strings this depends on the reads alone |
| `JsonReader.WrittenIsRead` | JsonRpc.cpp:295-322 | a reader of compact JSON text makes of every written value, of any nesting and with any characters in it, that value, and leaves nothing |
| `JsonReader.WriteInjective` | JsonRpc.cpp:65 | so different values are written differently |
| `JsonReader.PlainTextStays` | JsonRpc.cpp:65 | text without control characters, quotes and backslashes is written as it is |
| `JsonFraming.StrayTextIsDropped` | JsonRpc.cpp:94-145 | a buffer whose first character that is not blank is no brace is thrown away as a whole |
| `JsonFraming.RejectedTextIsDropped` | JsonRpc.cpp:94-145 | so is what is behind an object that the JSON reader rejects |
| `RpcCalls.ResponseShape` | JsonRpc.cpp:196-293 | for every message there is a response unless a handler throws; it has the id of the request and exactly one of result and error |
| `RpcCalls.RunIsSound` | JsonRpc.cpp:29-194 | the invariant of ids, table, callbacks and wire over every run, with nested sends and arbitrary responses |
| `RpcCalls.IdsAreConserved` | JsonRpc.cpp:59-64 | ids issued = outstanding + answered; outstanding ids are below the next id; the ids on the wire are 0, 1, 2, ... |
| `RpcCalls.InvocationsOfRequest` | JsonRpc.cpp:67-75 | the callback of a request runs once for a response exactly if the request is no longer outstanding, and once for a failed send exactly if it failed; never another callback |
| `RpcCalls.DuplicateIsIgnored` | JsonRpc.cpp:177-189 | a response delivered again changes nothing |
| `RpcCalls.AnswerReachesCaller` | JsonRpc.cpp:169-193 | the response to an outstanding request reaches its callback with what the handler returned |
| `RpcCalls.EachRequestAnsweredOnce` | JsonRpc.cpp:154-168 | in every run, requests with an id are answered once, in order, unless a handler threw; notifications are not |
| `RpcCalls.CallIsWritten` | JsonRpc.cpp:29-76 | what is written for a call: method, parameters, version, and the next id if and only if there is a callback; without a name or an array nothing is written and no id is used up |
| `RpcCalls.FailureIsTold` | JsonRpc.cpp:35-75 | a call that cannot be made or sent invokes its callback first of all, without result and with the error for that case |
| `RpcCalls.CallbackSends` | JsonRpc.cpp:35-75 | and what that callback sends is sent |
| `RpcCalls.ResponsesHaveVersion` | JsonRpc.cpp:198-199 | every response names the version |
| `RpcCalls.UnservedRequests` | JsonRpc.cpp:205-218 | the errors of requests without a method, with one that is no string, and with one that is not in the table |
| `RpcWire.StreamConveys` | JsonRpc.cpp:295-322 | messages written by one peer between blanks and read in pieces that lose none are the messages the other peer gets, in order |
| `JsonReader.MessagesAreRead` | JsonRpc.cpp:295-322 | the same with the reader of compact JSON text, of which nothing is assumed |
| `RpcWire.CallReturns` | JsonRpc.cpp:29-194 | a request written among others, read in pieces, answered by the other side, and the answer written and read in the same way: it invokes the callback of the request, if still outstanding, with what the handler returned, and settles it |
| `RpcWire.LoneCallReturns` | JsonRpc.cpp:29-194 | for a call alone on the connection, only the strings that caller and handler supply need to be such that the scan passes them |
| `JsonRpc.JsonRpc.SendRequest` | JsonRpc.cpp:29-76 | parameter checks, registration before sending, and the callback on failure, after which the entry stays |
| `JsonRpc.JsonRpc.ProcessRequest` | JsonRpc.cpp:196-293 | the response for every kind of request, one without a method included |
| `JsonRpc.JsonRpc.ProcessJsonMessage` | JsonRpc.cpp:151-194 | a request is served; a response invokes its callback and is then removed from the table; anything else is ignored |
| `AdapterCommands.HandlersAnswer` | IceAdapter.cpp:237-447 | every method of the table returns with either a result or an error |
| `AdapterCommands.EveryRequestIsAnswered` | IceAdapter.cpp:237-447 | in every run, every request with an id is answered, in order, with that id and exactly one of result and error, and nothing else is |
| `AdapterCommands.AdapterFollowsCommands` | IceAdapter.cpp:249-413 | in every run, the adapter is where the accepted commands and the game's events take it; rejected requests have no effect |
| `AdapterRequests.RequestReachesHandler` | JsonRpc.cpp:222-252 | from message to adapter: a request whose method is in the table is handled with the array in its params, or none, and answered with its id and the handler's result or error |
| `AdapterRequests.HostRequest` | IceAdapter.cpp:249-269 | hostGame with a map is carried out with that map and answered "ok" |
| `AdapterRequests.JoinRequest` | IceAdapter.cpp:271-291 | joinGame with login and id is carried out with these |
| `AdapterRequests.ConnectRequest` | IceAdapter.cpp:293-315 | connectToPeer with login, id and role is carried out with these |
| `AdapterRequests.ConvertedRequest` | IceAdapter.cpp:293-315 | and with any other values that can be converted, as text, number and truth value |
| `AdapterRequests.DisconnectRequest` | IceAdapter.cpp:317-337 | disconnectFromPeer with an id is carried out with that |
| `AdapterRequests.SetModeRequest` | IceAdapter.cpp:339-360 | setLobbyInitMode with a mode is carried out with that |
| `AdapterRequests.ForwardRequest` | IceAdapter.cpp:386-413 | sendToGpgNet is carried out with the header and, in order, a chunk for each value of the list |
| `AdapterRequests.EmptyCallIsRefused` | IceAdapter.cpp:249-437 | a command without any of its parameters has no effect and is answered with what it needs |
| `AdapterRequests.GameComplaints` | IceAdapter.cpp:255-277 | what hostGame and joinGame say then |
| `AdapterRequests.PeerComplaints` | IceAdapter.cpp:299-325 | what connectToPeer and disconnectFromPeer say |
| `AdapterRequests.MessageComplaints` | IceAdapter.cpp:368-397 | what iceMsg and sendToGpgNet say |
| `AdapterRequests.SettingComplaints` | IceAdapter.cpp:345-425 | what setLobbyInitMode and setIceServers say |
| `AdapterRequests.WrongKindIsRefused` | IceAdapter.cpp:341-413 | so are chunks that are no array and a mode that is no string |
| `AdapterRequests.QuitAndStatusRequests` | IceAdapter.cpp:239-247 | quit and status are answered whatever their parameters |
| `AdapterRequests.IceMessageTaken` | IceAdapter.cpp:362-384 | an ICE message for a peer without a relay is dropped and answered "ok"; for another one the relay may throw |
| `AdapterRequests.IceMessageRefused` | IceAdapter.cpp:362-384 | and it is refused without an object or without a number that fits |
| `AdapterRequests.ServersHandled` | IceAdapter.cpp:415-440 | ICE servers are taken as an array only |
| `AdapterRequests.ConnectReachesGames` | IceAdapter.cpp:78-89 | all the way: the request reaches every game in the lobby as ConnectToPeer, with the address of the new relay |
| `AdapterCommands.OkIffWellFormed` | IceAdapter.cpp:249-413 | a command is answered "ok" if and only if its parameters can be converted and, for a message to a connected game, its numbers fit; otherwise it is answered with an error and the adapter is as before |
| `AdapterCommands.OkHost` | IceAdapter.cpp:249-269 | "ok" to hostGame means that the host task is queued and relays are as before |
| `AdapterCommands.OkJoin` | IceAdapter.cpp:271-291 | "ok" to joinGame means that there is a relay to the player, a new answering one or the old one, that no other relay has changed, and that the task is queued |
| `AdapterCommands.OkConnect` | IceAdapter.cpp:293-315 | "ok" to connectToPeer means the same, with the role asked for |
| `AdapterCommands.OkDisconnect` | IceAdapter.cpp:317-337 | "ok" to disconnectFromPeer means that there is no relay to the player, and that a disconnect is queued if and only if there was one |
| `AdapterCommands.OkSend` | IceAdapter.cpp:386-413 | "ok" to sendToGpgNet means that every connected game has the message, last in its log; that is somebody if and only if a game is connected |
| `AdapterCommands.OkWithoutGame` | IceAdapter.cpp:123-131 | an adapter without a game answers "ok" and does nothing |
| `Timer.FireRegularIff` | Timer.cpp:58-73 | a timer stays "started exactly when one message is on its way" after a message if and only if its callback left the timer alone, or stopped a single shot |
| `Timer.RunIsRegular` | Timer.cpp:30-73 | over every run in which callbacks leave their own timer alone |
| `Timer.LateMessageIsIgnored` | Timer.cpp:58-62 | a message that arrives at a stopped timer calls nothing and posts nothing |
| `Timer.PeriodicArrivals` | Timer.cpp:30-73 | the message k of a periodic timer arrives k + 1 intervals after the start |
| `Timer.Timer.StartPeriodic` | Timer.cpp:30-37 | replaces whatever was on its way by one periodic message |
| `Timer.Timer.StartOnce` | Timer.cpp:39-45 | replaces whatever was on its way by one single-shot message |
| `Timer.Timer.StopTimer` | Timer.cpp:52-56 | no callback and no message is left |
| `Timer.Timer.TakeMessage` | Timer.cpp:58-62 | a message is consumed; the callback is called if there is one |
| `Timer.Timer.CallbackReturned` | Timer.cpp:63-71 | a single shot is forgotten, a periodic timer posts again |
| `RelayMachine.ClosingIsSilent` | PeerRelay.cpp:222-229 | whatever a connection reports while it is being closed changes the recorded ICE state only |
| `RelayMachine.CloseLeaves` | PeerRelay.cpp:138-157 | closing schedules nothing and tells nobody; it closes the connection there was |
| `RelayMachine.ReportsOnlySchedule` | PeerRelay.cpp:222-258 | any number of reports at most schedules one reinit and drops the checker |
| `RelayMachine.ReportIsPassedOn` | PeerRelay.cpp:222-243 | a state that a connection reports is passed on to the client, and the flag is up exactly after "connected" and "completed" |
| `RelayMachine.FailureReconnects` | PeerRelay.cpp:245-257 | an offerer schedules a reinit, in 100 ms, and drops its checker exactly for "failed", "disconnected" and "closed" |
| `RelayMachine.AnswererWaits` | PeerRelay.cpp:245-257 | an answerer schedules nothing |
| `RelayMachine.LossReconnects` | PeerRelay.cpp:199-205 | a loss found by the checker schedules the reinit in 1 ms and leaves connection and checker |
| `RelayMachine.CreatedHas` | PeerRelay.cpp:16-50 | an offerer begins with one connection and its channel and passes on what that reports; an answerer begins with nothing |
| `RelayMachine.ChannelIff` | PeerRelay.cpp:138-207 | in every run an offerer has a channel, and an answerer if and only if the other side has opened one on the present connection |
| `RelayMachine.ReinitResult` | PeerRelay.cpp:165-207 | the reinit function leaves one new connection, and an offerer with a live checker |
| `RelayMachine.StepSettles` | PeerRelay.cpp:159-258 | every event keeps what holds between events |
| `RelayMachine.OffererIsNeverStranded` | PeerRelay.cpp:159-258 | in every run: created minus closed is one exactly if there is a connection; an offerer has one, and a live checker or exactly one reinit message on its way; an answerer has neither checker nor timer |
| `RelayMachine.SignalsScheduleOne` | PeerRelay.cpp:209-215 | any number of failure signals schedules one reinit and performs none; without a signal none is scheduled |
| `RelayMachine.FailuresCoalesce` | PeerRelay.cpp:209-258 | the timer message after any number of signals makes exactly one new connection, closes exactly the old one and leaves nothing scheduled |
| `RelayMachine.NotificationsAlternate` | PeerRelay.cpp:260-283 | the client is told connected and disconnected in turn, and last the value of the flag |
| `RelayMachine.StepAgreesIff` | PeerRelay.cpp:165-283 | after an event, the flag agrees with the present connection: always, if that has spoken; exactly if the flag was down, if it has been replaced without a word; and otherwise as before |
| `RelayMachine.StepKeepsAgreementIff` | PeerRelay.cpp:165-283 | agreement is kept by every event but one that replaces a connection taken to be up while the new one says nothing |
| `RelayMachine.FlagAgreesIff` | PeerRelay.cpp:138-283 | in every run, flag and connection agree if and only if no connection taken to be up has been replaced since one last spoke |
| `RelayMachine.FlagSurvivesReinit` | PeerRelay.cpp:209-229 | it happens to an offerer: a connection found lost while up is replaced silently, and the flag stays true |
| `RelayMachine.FlagSurvivesOffer` | PeerRelay.cpp:104-108 | and to an answerer that gets a new offer while connected |
| `RelayMachine.EitherMayBeUp` | PeerRelay.cpp:16-50 | relays of both kinds get into that situation |
| `PeerRelay.PeerRelay.constructor` | PeerRelay.cpp:16-50 | an offerer has a connection at once, an answerer waits for an offer |
| `PeerRelay.PeerRelay.ChangeConnected` | PeerRelay.cpp:260-283 | notifies on change only; statistics are asked of a connection that exists |
| `PeerRelay.PeerRelay.ChangeIceState` | PeerRelay.cpp:222-258 | the new state; the checker is never destroyed while its callback runs |
| `PeerRelay.PeerRelay.CloseConnection` | PeerRelay.cpp:138-157 | everything is closed, with re-entrant reports in between |
| `PeerRelay.PeerRelay.Renew` | PeerRelay.cpp:169-206 | a new connection and, for an offerer, channel, offer and checker, in this order |
| `PeerRelay.PeerRelay.ReinitPeerconnection` | PeerRelay.cpp:165-219 | the reinit function as a whole |
| `PeerRelay.PeerRelay.ScheduleReinit` | PeerRelay.cpp:209-215 | arms the timer unless it is armed or the relay is closing |
| `PeerRelay.PeerRelay.OnConnectivityLost` | PeerRelay.cpp:201-205 | the lost-callback arms the timer only; the checker survives it |
| `PeerRelay.PeerRelay.OnReinitTimer` | Timer.cpp:58-73 | the timer message runs the reinit function and then disarms the timer |
| `PeerRelay.PeerRelay.AddDescription` | PeerRelay.cpp:92-114 | an answerer starts a new connection for each offer; the description is set on a connection that exists |
| `PeerRelay.PeerRelay.OnRemoteMessage` | PeerRelay.cpp:303-324 | where a message from the other side goes; the checker, if there is one, notes every message |
| `PeerRelay.PeerRelay.OnPeerdataFromGame` | PeerRelay.cpp:285-301 | what the game sends is passed on only while connected and over a channel |
| `PeerChannel.Words` | PeerConnectivityChecker.h:21-22 | ping and pong are the two words with a zero byte at their ends |
| `PeerChannel.GameGetsIff` | PeerRelay.cpp:303-324 | in every run of a relay, what exactly is kept from the game: pongs from an offerer's while it has a checker, which it has unless a reinit is scheduled; pings from an answerer's once the other side has opened a channel on the present connection |
| `PeerChannel.PingComesBack` | PeerRelay.cpp:303-324 | the ping of a checker is answered by the other side and the answer consumed by the checker; neither game sees them |
| `PeerChannel.LateAnswerReachesGame` | PeerRelay.cpp:246-256 | an answer that comes after a failure, when the checker is gone, is passed to the game |
| `PeerChannel.ConveyedIff` | PeerRelay.cpp:285-324 | datagrams of one game reach the other unchanged, exactly if they are not empty, the sender is connected and has a channel, and they are not the word the receiver waits for |
| `PeerRelay.PeerRelay.Destroy` | PeerRelay.cpp:52-55 | nothing is left open or on its way |
| `ConnectivityChecker.ReportsIffSilent` | PeerConnectivityChecker.cpp:42-88 | a check reports a loss if and only if nothing was heard for ten seconds (the start counts if nothing was heard at all) |
| `ConnectivityChecker.LastOfItsKind` | PeerConnectivityChecker.cpp:18-28 | the times that the checker remembers are those of the last pong and of the last other message |
| `ConnectivityChecker.FirstReportInWindow` | PeerConnectivityChecker.cpp:42-88 | with checks at most 1 s apart, the first report comes in [s + 10 s, s + 11 s) after the last message at s |
| `ConnectivityChecker.LossIsDetected` | PeerConnectivityChecker.cpp:42-88 | and silence that lasts is reported in that window |
| `ConnectivityChecker.AnsweredPingsPreventReport` | PeerConnectivityChecker.cpp:30-40 | if every ping is answered in less than 4.5 s, a loss is never reported |
| `ConnectivityChecker.PingSchedule` | PeerConnectivityChecker.cpp:10-40 | the ping times of these theorems are when the two timers, as started, call the sending function |
| `ConnectivityChecker.CheckSchedule` | PeerConnectivityChecker.cpp:10-16 | and the checks come one second apart |
| `ConnectivityChecker.SlowFirstAnswerIsReported` | PeerConnectivityChecker.cpp:30-40 | the bound is tight |
| `ConnectivityChecker.PeerConnectivityChecker.constructor` | PeerConnectivityChecker.cpp:10-16 | check timer and ping delay are started |
| `ConnectivityChecker.PeerConnectivityChecker.HandleMessageFromPeer` | PeerConnectivityChecker.cpp:18-28 | a pong is consumed, anything else is data; the time is recorded |
| `ConnectivityChecker.PeerConnectivityChecker.StartPing` | PeerConnectivityChecker.cpp:30-34 | the ping timer is started |
| `ConnectivityChecker.PeerConnectivityChecker.CheckConnectivity` | PeerConnectivityChecker.cpp:42-88 | the branches on three optional times report a loss if and only if the last sign of life, or the start, is ten seconds ago |
| `PingLedger.PingsAreConserved` | test/Pingtracker.cpp:45-64 | in every run, with duplicate and late pongs and a jumping clock: sent = successful + lost + pending |
| `PingLedger.UpdateIsFullSweepIff` | test/Pingtracker.cpp:92-113 | the loop with its early break removes all expired pings if and only if none behind an unexpired one has expired |
| `PingLedger.UpdateSweepsAll` | test/Pingtracker.cpp:92-113 | which holds in every run whose clock does not run backwards between sends |
| `PingLedger.BackwardsClockKeepsExpired` | test/Pingtracker.cpp:96-107 | and fails when it does |
| `PingLedger.FewPendingAfterUpdate` | test/Pingtracker.cpp:25-26 | with sends at least 20 ms apart at most 251 pings are pending after an update |
| `PingLedger.AnswerSettlesPing` | test/Pingtracker.cpp:30-64 | the answer of the remote side settles the ping it answers, once |
| `PingLedger.PacketMattersIff` | test/Pingtracker.cpp:30-65 | a packet is answered exactly if it is a ping for this peer, and changes the record exactly if it is a pong for it with the id of a pending ping |
| `Pingtracker.Pingtracker.SendPing` | test/Pingtracker.cpp:115-128 | a packet is sent and entered under the next id |
| `Pingtracker.Pingtracker.OnPingPacket` | test/Pingtracker.cpp:30-65 | a ping for this peer is answered, a pong for it settles its ping, anything else is ignored |
| `Pingtracker.Pingtracker.Sweep` | test/Pingtracker.cpp:92-113 | the loop gives up expired pings from the lowest id on |

## Left out

- WebRTC itself (ICE, SDP, statistics, data channels): it appears only through the events it reports.
- Sockets, listening and keepalive: reads and writes are events and logs; a write of the GPGNet server to a game is not modelled as failing.
- 32-bit overflow of request ids, player ids, login suffixes and ping ids: these counters are unbounded here.
- Running out of memory for an announced chunk count or length: only negative ones throw.
- An exception that leaves the GPGNet parser: nothing catches it, so it would end the program; here it ends what its connection delivers, and the rest goes on.
- `IceAdapter::setIceServers`, the `_gametaskString` and the contents of `status`: they do not interact with the modelled state; for the RPC table, the first may throw and the last is a given object.
- RPC callbacks of the asynchronous kind: the adapter registers none.
- The order in which relay reports and game events reach the thread of the adapter: any interleaving is a run.
- A failed send that also removes the socket (`JsonRpcServer.cpp:90-106`): whether sending succeeds is part of the event.
- JSON numbers other than integers, and the reader of jsoncpp: in the stream results a text is accepted or not, with a value, as a parameter says; `JsonReader` shows with a reader of its own that what they ask of it can be met.
- Duplicate member names in one JSON object: the first one counts here.
- The lobby's JSON-RPC layer: requests reach the handlers with the parameter they use classified as missing, not convertible, or a value.
- A failing `CreatePeerConnection`: it ends the process.
- `_currentPing`, a floating-point average.
- Qt user interface, option parsing, logging, process control and the Python tests.
- JsonText.FlatWrittenObjectIff: covers flat objects with brace-free strings, because with nesting or braces the outcome depends on where each brace falls between quotes; for those, `JsonText.WrittenObjectIsFrame` gives a sufficient condition.
- LobbyMesh.EveryGameIsAFullMesh: is about runs in which sendIceMsg comes from players that are logged in; one from a stranger that reaches a player leaves the tables inconsistent (`LobbyTables.SendIceKeepsTablesIff`).
- JsonRpc.JsonRpc.ProcessRequest: does not model asynchronous handlers.
