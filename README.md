# Chat server: broadcast, session and admission

A Dafny model of the server side of a small Java text-chat relay
(`aplicativo_chat/src/chat/ChatServer.java`). The server keeps one shared
list of connected clients (`clientSocketList`). Each client's session reads
lines from it. The first line is the client's login and is announced as
`Cliente <login> logado.`. Every later line is broadcast as
`<login> diz: <line>`. The line `sair` in any letter case ends the session.
A broadcast (`sendMsgToAll`) sends to every listed client except the sender.
It removes from the list, in place, each client whose send failed, and it
counts the sends that succeeded.

Files and modules:

- `wrappers.dfy` (`Wrappers`): `Option`, which stands for Java's nullable references.
- `transport.dfy` (`Transport`): `ClientSocket`, the abstract per-client
  connection. It has a login slot, the lines the peer will send (`None` stands
  for `readLine` returning null or throwing), a `closed` flag and a `broken`
  flag. A closed socket reads nothing more: `readLine` on its closed reader
  throws, and `getMessage` turns that into null. The environment sets `broken` when the peer's stream stops accepting
  writes. A send succeeds exactly when the socket is neither closed nor broken.
- `protocol.dfy` (`Protocol`): the quit test (`equalsIgnoreCase("sair")`), the
  two notice formats, and `Session`, a pure function giving what one session
  does with its input lines.
- `registry.dfy` (`Registry`): what one broadcast does to the list, as
  functions of the list and of the set of clients a send would reach:
  `Survivors`, `Evicted`, `Delivered` (the `count`) and `Attempts` (the sends
  made, in list order). Also the loop invariant `Scanned` and the lemmas about
  these functions.
- `server.dfy` (`Server`): the `ChatServer` class. Its field `clients` is
  `clientSocketList`. Its ghost logs `posted` and `sends` record every
  broadcast and every `sendMsg` call. Its methods are `SendMsgToAll`,
  `ClientMessageLoop` (its loop `ReceiveLoop` and loop body `Relay`), `Admit` and
  `ClientConnectionLoop`. The module also holds the specification functions
  of the accept loop (`Handled`, `Admissions`, `Rejections`) and of a whole
  session's broadcasts (`PostsBy`, `SessionSends`).

Every broadcast and every admission runs as one sequential step. The model
fixes, when a session starts, which clients can be written to. Nothing else
runs while the session is in progress, so that set holds for all of its
broadcasts.

## Behaviour of the code worth noting

- The quit test runs before the login test (`ChatServer.java:115-119`). So
  `sair` as the very first line ends the session with no login and no
  broadcast.
- A session that ends closes its socket but does not remove its client from
  the list (`ChatServer.java:131-133`). The entry stays listed until a
  broadcast from another client fails to write to it and evicts it: `println`
  on a closed `PrintWriter` sets its error flag.
- The broadcast walks the live list and removes entries through its iterator
  (`ChatServer.java:138-153`); there is no separate snapshot.
- The notices are `Cliente <login> logado.` and `<login> diz: <line>`
  (`ChatServer.java:122`, `126`), and the quit command is `sair`.
- The login notice, like every broadcast, is never sent to its own client
  (`ChatServer.java:129`, `148`; `Server.SessionNoEcho`).

## Model

| member | source | states |
|---|---|---|
| Transport.ClientSocket.constructor | aplicativo_chat/src/chat/ClientSocket.java:45-49 | a new connection has no login, is open and writable, and will deliver the given lines |
| Transport.ClientSocket.SendMsg | aplicativo_chat/src/chat/ClientSocket.java:52-57 | a send reports success exactly when the socket is open and its stream is unbroken |
| Transport.ClientSocket.GetMessage | aplicativo_chat/src/chat/ClientSocket.java:60-66 | yields the next pending line and consumes it; yields None, consuming nothing, when no line is left (end of stream) or the socket is closed (readLine throws and the exception becomes null) |
| Transport.ClientSocket.SetLogin | aplicativo_chat/src/chat/ClientSocket.java:68-70 | the login becomes the given name |
| Transport.ClientSocket.Close | aplicativo_chat/src/chat/ClientSocket.java:80-88 | the socket is closed afterwards, whether or not it was closed before |
| Transport.ClientSocket.Break | aplicativo_chat/src/chat/ClientSocket.java:52-57 | the peer's connection breaks, so every later `sendMsg` on it reports an error |
| Protocol.NextLogin | aplicativo_chat/src/chat/ChatServer.java:119-120 | after a relayed line there is always a login, and an existing login is kept |
| Protocol.Session | aplicativo_chat/src/chat/ChatServer.java:110-130 | a session never reads more lines than it is given |
| Protocol.FirstStop | aplicativo_chat/src/chat/ChatServer.java:113-117 | the index of the first null or quit line: no earlier line stops the session, and the line there does |
| Protocol.ResumeStep | aplicativo_chat/src/chat/ChatServer.java:119-129 | relaying one non-stop line appends its announcement to the broadcasts and moves the login on |
| Protocol.ResumeStop | aplicativo_chat/src/chat/ChatServer.java:113-117 | at end of stream or a quit line the session ends as it stands, consuming the quit line |
| Protocol.LoggedInSession | aplicativo_chat/src/chat/ChatServer.java:124-129 | once logged in, every line up to the first stop is broadcast, in order and once each, as `login diz: line`, and the login does not change |
| Protocol.FreshSession | aplicativo_chat/src/chat/ChatServer.java:113-129 | from no login: the first non-stop line becomes the login, the first broadcast is its notice, each later line up to the stop is tagged with it, and the number of broadcasts equals the number of non-stop lines read |
| Protocol.LoginIsFinal | aplicativo_chat/src/chat/ChatServer.java:119-127 | a session that has a login ends with that same login |
| Protocol.StopEndsSession | aplicativo_chat/src/chat/ChatServer.java:113-117 | a null or quit line ends the session at once with no broadcast, before login as well as after |
| Protocol.RawLoginNeverBroadcast | aplicativo_chat/src/chat/ChatServer.java:120-122 | the raw login line is never among the session's broadcasts |
| Protocol.LoginNoticeInjective | aplicativo_chat/src/chat/ChatServer.java:122 | different logins give different login notices |
| Protocol.ChatLineInjective | aplicativo_chat/src/chat/ChatServer.java:126 | for one login, different lines give different broadcasts |
| Protocol.AliceSession | aplicativo_chat/src/chat/ChatServer.java:113-129 | lines `alice`, `hello`, `Sair`, `late` give login `alice`, broadcasts `Cliente alice logado.` then `alice diz: hello`, and three lines read |
| Protocol.QuitSpellings | aplicativo_chat/src/chat/ChatServer.java:115 | `equalsIgnoreCase("sair")` accepts the case variants and rejects near misses |
| Registry.DistinctAppend | aplicativo_chat/src/chat/ChatServer.java:87 | appending a client that is not listed keeps the list free of duplicates |
| Registry.DistinctSplit | aplicativo_chat/src/chat/ChatServer.java:138-153 | in a duplicate-free list an entry occurs neither before nor after its own position |
| Registry.DistinctAt | aplicativo_chat/src/chat/ChatServer.java:138-153 | in a duplicate-free list different positions hold different clients |
| Registry.AgreesWithin | aplicativo_chat/src/chat/ChatServer.java:149 | a writability snapshot that agrees with the list also agrees with any part of it |
| Registry.WritableAt | aplicativo_chat/src/chat/ChatServer.java:149 | a listed client is in the writable set exactly when a send to it succeeds |
| Registry.Advance | aplicativo_chat/src/chat/ChatServer.java:143-153 | one iteration extends the survivors, count and sends of the processed prefix by the entry at the iterator |
| Registry.ScanNext | aplicativo_chat/src/chat/ChatServer.java:143-145 | `hasNext` holds exactly while original entries remain, and `next` yields the next original entry |
| Registry.ScanSkip | aplicativo_chat/src/chat/ChatServer.java:148 | visiting the sender sends nothing, removes nothing and counts nothing |
| Registry.ScanKeep | aplicativo_chat/src/chat/ChatServer.java:149-150 | a recipient whose send succeeded stays listed, is counted and its send is logged as a success |
| Registry.ScanEvict | aplicativo_chat/src/chat/ChatServer.java:149-151 | a recipient whose send failed is removed in place at the iterator and its send is logged as a failure |
| Registry.ScanDone | aplicativo_chat/src/chat/ChatServer.java:143-153 | when the iterator is exhausted the list, count and sends are those of the whole broadcast, and a duplicate-free list stays duplicate-free |
| Registry.SurvivorsEmbedding | aplicativo_chat/src/chat/ChatServer.java:138-153 | the list after a broadcast is the old list with exactly the evicted entries taken out: survivors keep their relative order, and every kept position survives |
| Registry.SurvivorsMembership | aplicativo_chat/src/chat/ChatServer.java:148-151 | a client survives exactly when it was listed and is the sender or was reached; the sender is never removed |
| Registry.EvictedMembership | aplicativo_chat/src/chat/ChatServer.java:148-151 | a client is evicted exactly when it was listed, is not the sender and its send failed |
| Registry.SplitMultiset | aplicativo_chat/src/chat/ChatServer.java:148-151 | survivors and evicted entries together are the old list, as a multiset |
| Registry.SurvivorsCount | aplicativo_chat/src/chat/ChatServer.java:148-150 | the number of survivors is the count plus the listed copies of the sender |
| Registry.Partition | aplicativo_chat/src/chat/ChatServer.java:139-151 | count + evicted entries + listed copies of the sender equals the list length, so count is at most the list length |
| Registry.SurvivorsDistinct | aplicativo_chat/src/chat/ChatServer.java:151 | a broadcast keeps a duplicate-free list duplicate-free |
| Registry.SurvivorsIdempotent | aplicativo_chat/src/chat/ChatServer.java:138-153 | a second broadcast over the survivors, with no client changing in between, removes nothing more |
| Registry.DistinctCount | aplicativo_chat/src/chat/ChatServer.java:87 | in a duplicate-free list a client occurs once if listed and not at all otherwise |
| Registry.RecipientsMembership | aplicativo_chat/src/chat/ChatServer.java:148 | the recipients are exactly the listed clients other than the sender |
| Registry.RecipientsDistinct | aplicativo_chat/src/chat/ChatServer.java:148 | the recipients of a duplicate-free list have no duplicates |
| Registry.AttemptsFollowRecipients | aplicativo_chat/src/chat/ChatServer.java:148-149 | the i-th send goes to the i-th recipient with the message, and succeeds exactly when that recipient is writable |
| Registry.AttemptsSkipSender | aplicativo_chat/src/chat/ChatServer.java:148 | every send of a broadcast goes to a listed client and never to the sender |
| Registry.SentExactlyOnce | aplicativo_chat/src/chat/ChatServer.java:143-149 | in the send log of a broadcast, each listed non-sender client appears exactly once and the sender and unlisted clients never |
| Registry.DeliveredCountsSuccesses | aplicativo_chat/src/chat/ChatServer.java:149-150 | `count` equals the number of sends that succeeded |
| Registry.SurvivorsAgree | aplicativo_chat/src/chat/ChatServer.java:149 | a broadcast depends on writability only through the listed clients |
| Registry.LaterBroadcastReachesAll | aplicativo_chat/src/chat/ChatServer.java:151 | after a broadcast has evicted the unreachable, a next one with no change in between reaches every recipient, so an evicted client is never tried again |
| Server.Handled | aplicativo_chat/src/chat/ChatServer.java:66-100 | the accept loop handles exactly the events before the first listener failure, which ends it |
| Server.AcceptSkip | aplicativo_chat/src/chat/ChatServer.java:72-79 | an accept failure is skipped: nothing is admitted or rejected and the loop goes on |
| Server.AcceptAdmit | aplicativo_chat/src/chat/ChatServer.java:85-87 | an accepted client whose thread started is admitted with its lines |
| Server.AcceptReject | aplicativo_chat/src/chat/ChatServer.java:88-93 | an accepted client that got no thread is rejected and nothing is admitted |
| Server.AcceptDone | aplicativo_chat/src/chat/ChatServer.java:66-100 | where the loop stops, it has handled exactly the events of Handled, and it stopped early iff the listener failed |
| Server.PostsBy | aplicativo_chat/src/chat/ChatServer.java:129 | a session's posts are its broadcasts, in order, each attributed to its own client |
| Server.ProgressStart | aplicativo_chat/src/chat/ChatServer.java:110-113 | a session starts with nothing read and nothing broadcast |
| Server.RelaySurvivors | aplicativo_chat/src/chat/ChatServer.java:129 | a later broadcast of a session removes nothing its first broadcast did not |
| Server.RelaySends | aplicativo_chat/src/chat/ChatServer.java:129 | a later broadcast of a session goes over the list the earlier ones left and extends the session's sends |
| Server.ProgressRelay | aplicativo_chat/src/chat/ChatServer.java:119-129 | relaying a line extends the session's posts and sends by one broadcast over the current list |
| Server.ProgressListed | aplicativo_chat/src/chat/ChatServer.java:129 | every client the session's broadcasts leave listed was listed when it started |
| Server.ProgressStop | aplicativo_chat/src/chat/ChatServer.java:113-117 | at a stop, the state reached is the whole session's outcome |
| Server.SessionNoEcho | aplicativo_chat/src/chat/ChatServer.java:129 | no send of any broadcast of a session goes to its own client |
| Server.ChatServer.constructor | aplicativo_chat/src/chat/ChatServer.java:26-28 | the server starts with an empty client list and no broadcasts |
| Server.ChatServer.ClientConnectionLoop | aplicativo_chat/src/chat/ChatServer.java:66-100 | the list grows by exactly the accepted clients whose thread started (new, not logged in, open), in order; accept failures change nothing; clients without a thread are closed and never listed; a listener failure ends the loop and closes the server socket |
| Server.ChatServer.Admit | aplicativo_chat/src/chat/ChatServer.java:85-93 | a client is appended only when its thread started; otherwise it is closed and the list is unchanged |
| Server.ChatServer.ClientMessageLoop | aplicativo_chat/src/chat/ChatServer.java:110-134 | the login, lines consumed, posts, sends and list are those of `Session` over the lines the socket can still deliver (none if it is already closed); the socket is closed on every exit; the client is never removed by its own session; the list stays duplicate-free |
| Server.ChatServer.ReceiveLoop | aplicativo_chat/src/chat/ChatServer.java:112-130 | the loop reads, logs in, broadcasts and evicts exactly as `Session` and one broadcast per relayed line say, reading nothing from a closed socket; the list stays duplicate-free |
| Server.ChatServer.Relay | aplicativo_chat/src/chat/ChatServer.java:119-129 | the first line becomes the login and its notice is broadcast; later lines are broadcast tagged with the login; the list stays duplicate-free |
| Server.ChatServer.SendMsgToAll | aplicativo_chat/src/chat/ChatServer.java:137-155 | the list becomes the survivors, count is the number delivered, and the sends are the attempts of the broadcast of the message; the list stays duplicate-free |
| Server.BroadcastPastBroken | aplicativo_chat/src/chat/ChatServer.java:143-153 | alice's broadcast over alice, bob, carol with bob unwritable keeps alice and carol, delivers once, and sends a failed line to bob and a delivered one to carol |
| Server.BroadcastToOne | aplicativo_chat/src/chat/ChatServer.java:143-153 | alice's broadcast over alice and a writable carol keeps both, delivers once, and sends only to carol |
| Server.ThreeListed | aplicativo_chat/src/chat/ChatServer.java:85-87 | a new server admitting three new connections lists exactly them, in order, all writable, with nothing sent yet |
| Server.BrokenPeerEvicted | aplicativo_chat/src/chat/ChatServer.java:148-151 | once bob's connection breaks, alice's next broadcast reaches carol, logs one failed send to bob and removes him; the broadcast after that reaches carol and makes no send to bob |

## Left out

- Threads and concurrency: the handler thread of `ChatServer.java:86`, the race between thread start and `clientSocketList.add`, and the unsynchronised shared `LinkedList`. Each broadcast and each admission is one atomic step. A session's writability snapshot assumes no other session runs during it.
- `ServerSocket` bind, accept and close, `start`, `stop` and `main`: I/O. An accept attempt is an event (accept failure, listener failure, or a client with its lines and whether its thread started). `stop` is the `listening` flag becoming false.
- `OutOfMemoryError` on thread creation: reduced to the boolean `threadStarted`.
- All console logging, including printing `count` and remote addresses: output only.
- Server.ChatServer.ClientConnectionLoop: handles a finite sequence of accept events, whereas the Java loop runs forever. Running out of events stands for the point of observation, not an exit.
- Transport.ClientSocket.SendMsg: the text written is not kept on the connection; the server's `sends` log records it instead. Whether a remote write fails is an environment flag (`Break`), not a model of TCP.
- `getRemoteSocketAddress`, `isOpen` and the port number: only used for logging and for binding the listening socket.
- The quit test: Java's `equalsIgnoreCase` is written out only for the letters of `sair`. Besides the ASCII capitals it admits LONG S, DOTLESS I and CAPITAL I WITH DOT ABOVE. General Unicode case folding is not modelled.
- `ChatClient.java` (the console client) is not part of this model.
