# MoT: a verified model of the messenger's server and its core routines

MoT is a terminal messenger: a single-threaded C server keeps six SQLite tables and a list of
TLS connections, and a client keeps the open chat in memory. This project models the parts
whose correctness is spread over several functions, and proves what every run of them keeps.

The server is modelled twice. `Server.Server` holds the mutable tables (`Storage.Store`) and the
linked client list (`Registry.ClientList`), with one method per handler, written in the order of
statements of the C code. `Machine` describes the same server as a state machine on values:
`Next` gives the state after an event, `Emits` the packets an event may cause. Every method is
proved to make exactly the step of `Machine`, `Server.Server.Serve` runs whole sequences of events
on the mutable server, and the theorems over whole runs are about `Machine.Run`.

| file | contents |
|---|---|
| `bytes.dfy`, `protocol.dfy` | octets, C strings, buffers; limits, requests and packets |
| `envelope.dfy` | CBC, padding, hex, `crypto_encrypt` and `crypto_decrypt` in their buffers |
| `tables.dfy`, `storage.dfy` | the tables as values; the functions of `storage.c` on a store |
| `registry.dfy` | the linked client list |
| `machine.dfy`, `server.dfy` | the state machine; the handlers and the event loop |
| `invariant.dfy` | what all reachable states satisfy |
| `groups.dfy`, `private_chats.dfy`, `message_log.dfy`, `sessions.dfy`, `contact_book.dfy`, `delivery.dfy` | theorems about runs |
| `effects.dfy` | what each request does to the tables, row by row |
| `rosters.dfy`, `replies.dfy` | who takes part in what, told from the packets sent; what the packets of a step say and to whom |
| `witnesses.dfy` | concrete runs that show conditions to be needed |
| `framing.dfy` | packets over partial writes and reads |
| `cstrings.dfy`, `config.dfy` | C strings in place; the configuration file, its line buffer and the struct it fills |
| `client_context.dfy` | the client's history buffer and request list |

## Modelling decisions

- An event carries every random draw (friend code, salt, IV) and the clock, so that `Next` is a
  function. A `SELECT` without `ORDER BY` returns some duplicate-free enumeration of its result,
  so the packets are a relation: a theorem about packets holds for every order.
- What an operation does is said twice: once by the functions of `Tables` and `Machine` that the
  methods are proved against, and once by the laws of `Effects`, `Rosters`, `Replies` and
  `Sessions`, which speak of rows, records, fields and octets and do not use those functions.
- A plain `INSERT` fails on a key clash, a two-row `INSERT` is all or nothing, `INSERT OR IGNORE`
  keeps the old row, and AUTOINCREMENT ids start at 1 and are never used again.
- A run is possible if the kernel never hands out a descriptor that is still open. Nothing else
  is assumed of the clients: packets may come from connections that never logged in (uid 0).
- AES-256 under the master key is an arbitrary permutation of 16-octet blocks, `crypt` an
  arbitrary function. CBC (section 6.2 of NIST SP 800-38A) and the padding (section 6.3 of
  RFC 5652) are defined, not assumed.
- The behaviour of the code is kept where it is not what one might expect: handlers do not ask
  for a login, `handle_decide_request` accepts requests nobody made, `handle_send_text` logs texts
  to conversations the sender is not in or that do not exist, a group can outgrow the ten members
  that are notified, a refused rename still changes the session's name, and only private
  creations listing exactly two uids look for an existing chat.
- An `AppConfig` is the whole contents of its arrays, and nothing is known of them beforehand:
  both `main` functions load into an uninitialised struct on their stack (src/client/main.c:195,
  src/server/main.c:41), and `strncpy` never writes the last octet of a field.
- What strncpy and snprintf copy into sessions, list rows and packets is cut to the field. A text
  is logged whole and routed cut to 1024 octets.
- README.md:150 of the repository gives the packet type one octet; `include/system/protocol.h:97-101`
  and the code use four, and so does the model.

## Results that are not what one would hope for

- Two users can come to share two private chats: `Witnesses.ThreeListedDuplicates` is a run of
  registered users that does it. `PrivateChats.PairsUniqueIff` says exactly which runs do, and
  `PrivateChats.LookupIsStable` for which runs one pair's chat stays its only one.
- A command on a group of more than ten members may fail to reach any one of them:
  `Delivery.CommandReachesIff` says exactly whom, `Delivery.CommandCompleteIff` exactly when
  everyone is reached, and `Witnesses.RenameCanMiss` is a run to such a group. It needs two logins
  to succeed, so it assumes that crypt(3) keeps its word for the one password and salt it uses.
- `handle_decide_request` makes friends of users between whom there was no request:
  `ContactBook.FriendsIffAccepted` says that an accept on either side is all it takes.
- A history packet holds one line, that of an oldest message, however many the conversation has:
  `MessageLog.HistoryWholeIff`, `MessageLog.HistoryIsOldest`. The string ends at the NUL that
  `storage_get_history` leaves behind each line (src/server/storage.c:556, 568-569). The query takes the oldest 50
  rows, where include/system/storage.h:117 promises the last 50.
- A text of more than 1024 octets arrives shorter than it is logged: `Delivery.RoutedIsLoggedIff`.
- A packet with a positive length and a NULL payload is not a frame: `Framing.PrintedIsFrameIff`.
- A value in the configuration file that fills its field is found cut, or without an end:
  `Config.FieldReadsIff`. A saved host comes back, whatever the struct held, if and only if it is
  non-empty, trimmed, free of newlines and at most 254 octets long: `Config.SaveLoadAlwaysIff`.
  The first-start wizard (src/client/ui.c:94) takes 255: `Config.LongestHostLosesItsEnd`.
- The recorded history length exceeds the string's if a history packet had a NUL inside:
  `ClientContext.RecordedIff`.

## Model

| member | source | states |
|---|---|---|
| Invariant.RunKeepsInv | src/server/main.c:98-242 | every possible run from a state with the invariant ends in one: unique user columns, ids below their counters, participants only of existing conversations, exactly one admin per group with participants and none elsewhere, mutual irreflexive contacts, irreflexive requests, sessions online exactly when logged in as an existing user, distinct descriptors |
| Invariant.StartInv | src/server/storage.c:59-88 | empty tables and no connections satisfy it |
| Invariant.DbStep | src/server/main.c:174-236 | any request from any uid, 0 included, keeps the table invariant |
| Invariant.CreateKeeps | src/server/storage.c:395-429 | a creation with any type and any uids, repeated or unknown ones too, keeps the table invariant |
| Invariant.KickKeeps | src/server/handlers/group_handler.c:112-128 | because the admin cannot be the target, kicking changes no admin and keeps the invariant |
| Invariant.AddParticipantKeeps | src/server/storage.c:610-623 | adding or re-adding a member never changes who is an admin |
| Invariant.DeleteKeeps | src/server/storage.c:660-679 | deleting removes that conversation's admin and no other |
| Invariant.FriendshipKeeps | src/server/storage.c:310-323 | the two-row insert adds both directions or nothing, in particular nothing for a user with themselves |
| Invariant.UsersStay | src/server/storage.c:149-238 | no request removes a user or changes an email or a friend code |
| Effects.RegisterEffect | src/server/storage.c:149-177 | one new row with each value in its column under the next id, unless a row has the name, email or code; nothing else changes |
| Effects.UpdateUserEffect | src/server/storage.c:208-238 | the name if it is given and free, the hash if a password is given, of that one row |
| Effects.CreateEffect | src/server/handlers/group_handler.c:28-49 | nothing if a private chat of the two uids read exists; else one conversation of that type, name and description and one row per uid read, the first one of a group as its admin |
| Effects.UpdateGroupEffect | src/server/storage.c:596-608 | only the admin's command, and only that conversation's name and description, each in its place |
| Effects.AddMemberEffect | src/server/storage.c:610-623 | only the admin's command; the user of the code gets a member row unless they have one, all other rows stay |
| Effects.KickEffect | src/server/storage.c:647-658 | only the admin's command about somebody else; exactly the row of conversation and target goes, all rows kept keep their roles |
| Effects.DeleteEffect | src/server/storage.c:660-679 | only the admin's command; exactly the conversation, its participants and its messages go |
| Effects.SendTextEffect | src/server/storage.c:507-526 | one row more at the end, with the next id, conversation, sender, an envelope of the text and the clock reading of the step |
| Effects.AddByCodeEffect | src/server/handlers/contact_handler.c:13-32 | the request row from the sender to the user of the code, unless they are the same |
| Effects.DenyEffect | src/server/handlers/contact_handler.c:72 | denying removes the request and changes nothing else |
| Effects.AcceptEffect | src/server/handlers/contact_handler.c:41-72 | both contact rows come, the request goes, and a private chat of the two is opened if they share none; nothing else changes |
| Effects.OthersChangeNothing | src/server/main.c:181-235 | logins, queries and unknown packets leave the tables alone |
| Rosters.RolesFollowPackets | src/server/handlers/group_handler.c:28-151 | after every possible run a user takes part in a conversation in exactly the role the packets gave: listed or accepted when it was opened or added since, and not kicked or deleted since |
| Groups.NonInterference | src/server/handlers/group_handler.c:80-151 | over any run in which no connection logged in as a conversation's admin sends one of the four commands about it, its participants, roles, name, description and existence stay as they are |
| Groups.NoAdminNoChange | src/server/storage.c:579-594 | a conversation without an admin, every private one included, never changes again on any run |
| Groups.OnlyAdminChanges | src/server/storage.c:579-594 | the one-step form: a request changes an existing conversation only as one of the four group commands, sent by its admin |
| Groups.FounderIsTheAdmin | src/server/storage.c:417-426 | after any further run the first uid listed at a group's creation is its only admin, or the group is gone and has no rows |
| Groups.AdminForLife | src/server/handlers/group_handler.c:89-128 | an admin stays the only admin through all adds, re-adds and kicks, as long as the group exists |
| Groups.AdminsExactly | src/server/storage.c:579-594 | in every reachable state a conversation has an admin if and only if it is a group with participants, never two, and participants belong to existing conversations with ids below the counter |
| Groups.GoneForever | src/server/storage.c:660-679 | after deletion no later state gives the id a participant, an admin or a place in anyone's list |
| PrivateChats.PairsUniqueIff | src/server/handlers/group_handler.c:36-49 | after a run any two users share at most one private chat if and only if no step created one listing more than two uids of which two shared one already |
| PrivateChats.PairsStepIff | src/server/storage.c:370-429 | the same for one request: uniqueness survives it if and only if it is not such a creation |
| PrivateChats.CreateUniqueIff | src/server/storage.c:395-429 | a creation keeps uniqueness if and only if it is not a private one listing two users that share one |
| PrivateChats.TwoListedNeverDuplicate | src/client/services/group_service.c:27-36 | runs whose private creations list at most two uids, as the client's do, never duplicate |
| PrivateChats.SharedStepIff | src/server/handlers/group_handler.c:36-49 | once two users share chats, a request changes which if and only if it creates a private chat listing both among more than two uids |
| PrivateChats.SharedRunIff | src/server/handlers/group_handler.c:36-49 | the same over any run from any state in which they share some |
| PrivateChats.LookupIsStable | src/server/storage.c:370-393 | once two users share chat c, after any further run c, which is not 0, is the lookup's only possible answer in either argument order if and only if it was before and no step created a private chat listing both among more than two uids |
| PrivateChats.LookupNeverDuplicates | src/server/storage.c:370-393 | in particular after every run without a duplicating creation |
| PrivateChats.SharedForever | src/server/handlers/contact_handler.c:46-54 | a shared private chat stays shared in every later state |
| Witnesses.ThreeListedDuplicates | src/server/handlers/group_handler.c:39-49 | a possible run in which three users register and after which two of them share two private chats |
| MessageLog.TableRefinesLog | src/server/storage.c:507-526 | after every run the rows of any conversation id, in id order, decrypt to exactly the senders and texts sent to it since it was last deleted |
| MessageLog.RowsComplete | src/server/storage.c:507-526 | on a table in id order those rows are all rows of the conversation and their ids increase |
| MessageLog.LogComplete | src/server/storage.c:507-526 | both together on every possible run: all rows of the id, in increasing id order, decrypt to what was sent to it since it was last deleted |
| MessageLog.HistoryWholeIff | src/server/storage.c:528-577 | the string of a history packet is the whole selection if and only if the conversation has at most one message by an existing user |
| MessageLog.HistoryIsOldest | src/server/storage.c:533-569 | on every possible run a history packet that is not empty holds one line with a text sent to the conversation since it was last deleted, under its sender's name, and no row by an existing user is older |
| MessageLog.StoredOpensIff | src/server/storage.c:507-526 | on every run a stored row decrypts to p if and only if it is the envelope of p under some IV |
| Sessions.DescriptorsAreOpen | src/server/client_manager.c:38-83 | on every possible run the records have exactly the descriptors accepted and not closed since, each once |
| Sessions.CloseEffect | src/server/client_manager.c:54-83 | after a close no record has the descriptor; all others are as before, in their order |
| Sessions.LoginEffect | src/server/handlers/auth_handler.c:19-28 | the sender's record, and no other, takes over id and name of the account when crypt confirms the password |
| Sessions.RenameEffect | src/server/handlers/auth_handler.c:44-50 | an update with a name renames the sender's record, cut to its field, and no other |
| Sessions.NamesFollow | src/server/handlers/auth_handler.c:24-48 | on every possible run a session bears the name last given on its connection by a login or an update |
| Sessions.SessionsFollowLogins | src/server/handlers/auth_handler.c:19-42 | on every run a connection's uid is that of the last login that succeeded on it since it was accepted, it is online if and only if there was one, that user exists, and the list is newest first |
| Sessions.LookupFindsNewest | src/server/client_manager.c:85-97 | the session found for a uid is the most recently accepted connection logged in as that uid |
| Sessions.LoginExactly | src/server/storage.c:179-206 | on every run a login succeeds if and only if the password matches the hash last set for the email by registering or updating, and then it is for the only account with that email |
| Sessions.CodeForever | src/server/storage.c:242-258 | a friend code that resolves keeps resolving to the same user |
| Sessions.UsersForever | src/server/storage.c:208-238 | users are never removed and keep email and friend code on every run |
| ContactBook.FriendsForever | src/server/storage.c:310-323 | on every run friendship is mutual, never with oneself, and never undone |
| ContactBook.FriendsIffAccepted | src/server/handlers/contact_handler.c:41-72 | after every possible run two users are friends if and only if they differ and in some step one of them accepted the other, whether or not there was a request |
| ContactBook.RequestsArePending | src/server/handlers/contact_handler.c:13-72 | after every possible run there is a request from a to b if and only if a sent b's code and b has not decided about a since |
| ContactBook.AcceptingDoes | src/server/handlers/contact_handler.c:41-72 | accepting another user, from any reachable tables, ends with friendship both ways, a shared private chat (the old one, or a new one of just the two without an admin), the request gone and no other row touched |
| ContactBook.MirrorAcceptOnlyClears | src/server/handlers/contact_handler.c:41-72 | after an accept and any further run, accepting the mirror request changes that request row only |
| ContactBook.AcceptingOneself | src/server/handlers/contact_handler.c:43-54 | accepting oneself adds no contact and at most opens a chat of one |
| Delivery.ListsAreFresh | src/server/handlers/contact_handler.c:56-87 | every conversation, contact and request list written in a step goes to an open connection, for that connection's own uid, and is an answer to the query in the state the step ends in |
| Replies.ListsSay | src/server/storage.c:325-488 | every list packet goes to an open connection and holds, for that connection's uid, one row per contact, pending request or conversation of the final tables, all of them below fifty, each field as stored and cut to its size |
| Replies.LoginReply | src/server/handlers/auth_handler.c:29-41 | id, name, email and code of the account, each in its field, when crypt confirms the password; else the refusal |
| Replies.RegisterReply | src/server/handlers/auth_handler.c:7-17 | success if and only if name, email and code are free |
| Replies.CreateReply | src/server/handlers/group_handler.c:51-70 | the sender learns the id found or made; only a new conversation is announced, to every other uid read with a session and to nobody else |
| Replies.AddMemberReply | src/server/handlers/group_handler.c:89-103 | the admin is told first that the member was added; an unknown code is not answered |
| Replies.CommandIgnored | src/server/handlers/group_handler.c:80-151 | commands of anybody but the admin, and a kick of oneself, are not answered |
| Replies.AddByCodeReply | src/server/handlers/contact_handler.c:13-32 | confirmed and shown to the receiver's session if a request was filed, else refused |
| Replies.DecideReply | src/server/handlers/contact_handler.c:56-86 | the sender gets both lists; after an accept the other one's contacts, and if a chat was opened both users' conversations, are refreshed |
| Replies.DecideTellsOnly | src/server/handlers/contact_handler.c:56-86 | and nobody else is told: two packets when denying, at most five when accepting |
| Replies.CommandTellsOnly | src/server/handlers/group_handler.c:80-151 | a group command sends lists to nobody but concerned users with a session, one to each of them at most |
| Replies.QueryReply | src/server/handlers/group_handler.c:73-110 | one packet of the kind asked for, to the sender, with the rows of the tables |
| Replies.HistoryReply | src/server/handlers/chat_handler.c:38-51 | after every possible run one packet to the sender: empty if no user wrote to the conversation since it was deleted, else the header, text and newline of one logged text that no other is older than |
| Delivery.RoutingExact | src/server/handlers/chat_handler.c:15-35 | a text, cut to 1024 octets, goes once to every other member with a session and to nobody else, with the conversation, the sender and the session's name in their fields; above ten members, to those with a session among exactly ten members |
| Delivery.RoutedIsLoggedIff | src/server/handlers/chat_handler.c:12-33 | packets and the step's last row agree on conversation and sender; the row decrypts to the whole text, and what is routed equals it if and only if the text has at most 1024 octets |
| Delivery.CommandReachesIff | src/server/handlers/group_handler.c:80-151 | for every effective command of an admin and every concerned user with a session (members, the kicked user, all former members): the user's list is refreshed whatever order the query has, if and only if the query has at most ten rows or the user is not among them, as the kicked user is not |
| Delivery.CommandCompleteIff | src/server/handlers/group_handler.c:80-151 | such a command reaches every concerned user with a session if and only if the query has at most ten rows or nobody in it is online |
| Delivery.CommandsReachEveryone | src/server/handlers/group_handler.c:80-151 | within the limit of ten every concerned user with a session gets a fresh list |
| Delivery.DeleteMissed | src/server/handlers/group_handler.c:130-151 | deleting a group of more than ten can leave any chosen online member without notice |
| Witnesses.RenameCanMiss | src/server/handlers/group_handler.c:80-103 | if crypt gives the hash of one password under one drawn salt back when that hash is the salt, so that two logins succeed: a possible run to a group of eleven with two online, after which the admin's renaming may write nothing to the other one |
| Delivery.NotifyCompleteIff | src/server/handlers/group_handler.c:8-26 | every online member is notified whatever order the query has, if and only if the group has at most ten members or none of them is online |
| Delivery.SomeoneMissed | src/server/handlers/group_handler.c:10-11 | above ten members any online member can be the one left out |
| Delivery.Selected | src/server/storage.c:490-505 | a capped query yields min(cap, size) different rows of the table, all of them if they fit |
| Server.Server.OnAccept | src/server/main.c:107-141 | accepting makes the machine's Accept step |
| Server.Server.OnClose | src/server/main.c:150-172 | closing makes the machine's Close step |
| Server.Server.OnReceive | src/server/main.c:174-236 | dispatching a packet makes the machine's step and writes packets the machine allows |
| Server.Server.Serve | src/server/main.c:98-242 | any sequence of events on the real tables and list ends in the state of the machine's run, each event answered with packets the machine allows there |
| Server.RunServer | src/server/main.c:98-242 | the same from the start of the server |
| Server.Server.HandleReqHistory | src/server/handlers/chat_handler.c:38-51 | one packet to the sender with the history string up to its first NUL, and no change |
| Server.Server.HandleRegister | src/server/handlers/auth_handler.c:7-17 | inserts the user or nothing on a clash, and answers accordingly |
| Server.Server.HandleLogin | src/server/handlers/auth_handler.c:19-42 | binds the session through the pointer into the list exactly when the credentials are accepted, leaving all other records alone |
| Server.Server.HandleUpdateUser | src/server/handlers/auth_handler.c:44-50 | changes name and hash where given; the session's name changes even if the table refuses it |
| Server.Server.HandleSendText | src/server/handlers/chat_handler.c:8-36 | appends one sealed row and routes to the selected members other than the sender |
| Server.Server.HandleCreateConv | src/server/handlers/group_handler.c:28-71 | finds or creates, answers with that id, and refreshes the other listed users only if it created |
| Server.Server.HandleUpdateGroup | src/server/handlers/group_handler.c:80-87 | renames and notifies for the admin, nothing otherwise |
| Server.Server.HandleAddMember | src/server/handlers/group_handler.c:89-103 | adds the user of the code and notifies for the admin, nothing otherwise |
| Server.Server.HandleKickMember | src/server/handlers/group_handler.c:112-128 | removes the target, notifies the rest and then the target, unless the sender is no admin or the target |
| Server.Server.HandleDeleteGroup | src/server/handlers/group_handler.c:130-151 | reads the members, deletes, then refreshes the former members from the new tables |
| Server.Server.HandleAddByCode | src/server/handlers/contact_handler.c:13-32 | files a request unless it is there already or to oneself, and refreshes the receiver |
| Server.Server.HandleDecideRequest | src/server/handlers/contact_handler.c:41-87 | befriends if accepted, removes the request row, and sends the lists in that order |
| Server.Server.NotifyGroupUpdate | src/server/handlers/group_handler.c:8-26 | one list per online uid of one selection of at most ten members |
| Storage.Store.RegisterUser | src/server/storage.c:149-177 | succeeds if and only if no user has the name, email or code; else the table is unchanged |
| Storage.Store.CheckCredentials | src/server/storage.c:179-206 | returns the only user of the email if crypt with the stored hash gives that hash, else nothing |
| Storage.Store.ChangeUser | src/server/storage.c:208-238 | two independent updates, each skipped for an empty argument, the rename refused if the name is taken |
| Storage.Store.InsertRequest | src/server/storage.c:282-295 | succeeds if and only if sender and receiver differ and the row is not there |
| Storage.Store.InsertFriendship | src/server/storage.c:310-323 | inserting two rows one after the other with rollback adds both or neither |
| Storage.Store.FindPrivate | src/server/storage.c:370-393 | 0 if and only if the two share no private chat, else one they share |
| Storage.Store.InsertConversation | src/server/storage.c:395-429 | row by row with clashes ignored: all listed uids, the first one as the admin of a group, under the next unused id |
| Storage.Store.GetUserConversations | src/server/storage.c:431-488 | at most 50 different conversations of the user, private ones named as the inner query names them, names and descriptions cut to their fields |
| Storage.Store.GetConvParticipants | src/server/storage.c:490-505 | min(max, size) different participants in the caller's array |
| Storage.Store.HasAdmin | src/server/storage.c:579-594 | true if and only if the user's participant row has the admin role |
| Storage.Store.DropConversation | src/server/storage.c:660-679 | three deletes in turn: messages, participants, conversation |
| Storage.Store.AppendMessage | src/server/storage.c:507-526 | appends the envelope of the text under the next message id |
| Storage.Store.GetHistory | src/server/storage.c:528-577 | in a growing buffer with every write inside it: of the at most 50 oldest rows by existing users, strlen sees exactly the first one's line, or nothing if there is none |
| Registry.Removed | src/server/client_manager.c:54-83 | the list without the first record of the descriptor, the others in their order |
| Registry.ClientList.Add | src/server/client_manager.c:38-52 | puts a logged-out record in front of all others, which stay as they are |
| Registry.ClientList.Remove | src/server/client_manager.c:54-83 | relinking in place removes exactly the first record with the descriptor and leaves the list acyclic |
| Registry.ClientList.ByUid | src/server/client_manager.c:85-97 | the first online record of the uid, or null |
| Registry.ClientList.ByFd | src/server/client_manager.c:99-111 | the first record with the descriptor, or null |
| Registry.SessionIndex | src/server/client_manager.c:85-97 | the position found is a session of the uid and no earlier one is |
| Registry.FdIndex | src/server/client_manager.c:99-111 | the position found has the descriptor and no earlier one has |
| Framing.Deliver | src/common/protocol.c:51-141 | over every way writes and reads split the octets, the packets received are the first ones sent, all of them if nothing failed, and all that went out whole if only writes failed |
| Framing.ParseArrived | src/common/protocol.c:119-141 | any arrived part of a stream yields exactly the packets that lie wholly in it, never a partial one |
| Framing.ParseStream | src/common/protocol.c:105-141 | parsing a whole stream gives back the packets printed |
| Framing.PrintedIsFrameIff | src/common/protocol.c:105-117 | what send_packet writes is a frame if and only if the length is 0 or there is a payload |
| Framing.SendAll | src/common/protocol.c:51-64 | returns 0 if and only if all octets were written, else a beginning of them was |
| Framing.RecvAll | src/common/protocol.c:66-79 | success means the next len octets are in the buffer and consumed, and it is certain when they have come and reads do not fail |
| Framing.SendPacket | src/common/protocol.c:105-117 | returns 1 if and only if header and payload were written completely: type and length in four octets each, the most significant first, then the payload |
| Framing.RecvPacket | src/common/protocol.c:119-141 | success yields the next whole packet, type and length read with the most significant octet first, its payload followed by a NUL, and consumes exactly it |
| Framing.WireSays | src/common/protocol.c:108-109 | the eight octets in front of a payload, as numbers |
| Framing.ReceiveUntilFailure | src/server/main.c:163-173 | the packets received are the first ones the incoming octets parse to, all of them unless a read fails early |
| Envelope.OpenSeal | src/common/crypto.c:40-161 | opening a sealed text gives the text back for every block permutation, IV and contents of the uninitialised buffers |
| Envelope.OpensExactlyEnvelopes | src/common/crypto.c:101-161 | lower-case hex opens to p if and only if it is the envelope of p under some IV |
| Envelope.SealInjective | src/common/crypto.c:85-98 | equal envelopes have equal IVs and equal texts |
| Envelope.SealCanonical | src/common/crypto.c:84-98 | everything crypto_encrypt returns is lower-case hex of even length |
| Envelope.SealOctets | src/common/crypto.c:84-95 | an envelope spells out each octet of the IV and then of the ciphertext of the padded text, high digit first, in lower-case ASCII |
| Envelope.CbcBlock | src/common/crypto.c:68-74 | each ciphertext block is the cipher of the text block xor the ciphertext block before it, the IV before the first |
| Envelope.XorBlockBits | src/common/crypto.c:68 | xor adds the binary digits without carry |
| Envelope.PadOctets | src/common/crypto.c:74 | from one to sixteen octets are added, each saying how many |
| Envelope.CbcUndo | src/common/crypto.c:133-148 | CBC decryption undoes CBC encryption |
| Envelope.CbcRedo | src/common/crypto.c:133-148 | CBC encryption undoes CBC decryption |
| Envelope.PadUndo | src/common/crypto.c:148 | removing the padding gives back what was padded |
| Envelope.UnhexOctets | src/common/crypto.c:33-38 | each pair of digits, in either case, gives its number; one digit alone counts by itself, and a bad first one leaves the octet as it was |
| Envelope.HexUndo | src/common/crypto.c:25-38 | hex_to_bytes undoes bytes_to_hex whatever the target held |
| Envelope.CryptoEncrypt | src/common/crypto.c:40-99 | fails only without a key; every write stays in its buffer and the result is the NUL-terminated envelope of the text |
| Envelope.CryptoDecrypt | src/common/crypto.c:101-161 | NULL without a key or below 32 digits, the placeholder for what does not open, else the text; every write stays in its buffer |
| Envelope.RoundTrip | src/common/crypto.c:40-161 | decrypting what encrypting a NUL-free text returned gives that text |
| Envelope.BytesToHex | src/common/crypto.c:25-30 | writes two digits per octet and one NUL, and nothing else |
| Envelope.HexToBytes | src/common/crypto.c:33-38 | converts digit pairs in turn, leaving octets whose first digit is bad |
| Config.FieldReads | src/common/config_loader.c:53-111 | every file, every prior contents of the struct: each field reads as the value of the last line about it, or the default; a value that fills the field reads cut, and only if the octet strncpy leaves was NUL |
| Config.FieldReadsIff | src/common/config_loader.c:79-107 | a value in a file is what readers find whatever the struct held if and only if it has at most 254 octets for the host and the key, 510 for a path |
| Config.PortReads | src/common/config_loader.c:83-86 | the port is the number on the last line about it, 8080 without one |
| Config.SaveLoadIff | src/common/config_loader.c:53-126 | into a struct that held was, a saved host comes back if and only if it is non-empty, newline-free, trimmed, and below 255 octets or was ended in NUL; all else is then as the defaults leave it |
| Config.SaveLoadAlwaysIff | src/common/config_loader.c:53-126 | it comes back into every struct if and only if it is non-empty, newline-free, trimmed and has at most 254 octets |
| Config.LongestHostLosesItsEnd | src/common/config_loader.c:79-82 | a host of 255 octets, saved and loaded, is left without a NUL in its field unless one was there |
| Config.CopyReads | src/common/config_loader.c:46 | what a reader finds in a field after strncpy of one octet less than its size |
| Config.PortSurvives | src/common/config_loader.c:113-126 | every C int port comes back whatever the host is |
| Config.NamesReach | src/common/config_loader.c:79-106 | each of the eight names of a file sets its own member of the struct, last line first; without a line the default is read |
| Config.SaveText | src/common/config_loader.c:119-123 | the text of a saved file from its first character to its last |
| Config.LinesAre | src/common/config_loader.c:61-62 | cutting a file for fgets loses nothing, and newlines stand at the ends of pieces only, none longer than 1023 |
| Config.CommentsIgnored | src/common/config_loader.c:66-69 | a line with '#' behind white space gives nothing |
| Config.AtoiReads | src/common/config_loader.c:85 | white space, a sign and decimal digits give that number, whatever follows |
| Config.ItoaIs | src/common/config_loader.c:122 | %d writes the decimal digits of the number without a needless zero, behind a minus below zero |
| Config.AtoiItoa | src/common/config_loader.c:85 | atoi undoes %d on every integer |
| CStrings.TrimExact | src/common/config_loader.c:12-24 | trimming yields a trimmed string, changes nothing exactly on trimmed strings, and is idempotent |
| CStrings.TrimTakesSpaces | src/common/config_loader.c:12-24 | what trimming takes away before and behind is white space |
| CStrings.TokenIs | src/common/config_loader.c:71-72 | a token is the text up to the next delimiter behind any that are skipped |
| CStrings.TrimWhitespace | src/common/config_loader.c:12-24 | in place: the returned position starts the trimmed string and the only write is one NUL behind it |
| Config.ConfigStruct.ConfigLoad | src/common/config_loader.c:53-111 | reading line by line into a buffer of 1024, cutting it up in place and copying into the struct's arrays computes Load of whatever they held; a missing file gives the defaults |
| Config.ConfigStruct.ApplyDefaults | src/common/config_loader.c:41-51 | fills the arrays, the last octets and everything behind an emptied field's first staying as they were |
| Config.StrNCpyInto | src/common/config_loader.c:81 | strncpy with one octet less than the array: the string, NULs behind it, the last octet untouched |
| Config.SplitLine | src/common/config_loader.c:64-77 | in the line buffer: nothing for blank lines, comments and lines without a value, else trimmed key and value |
| CStrings.Strtok | src/common/config_loader.c:71-72 | the next token, a NUL over the delimiter behind it, the rest for the next call |
| Config.KeyValueOf | src/common/config_loader.c:71-77 | a line of a plain key, an equals sign and a value gives that key and the trimmed value, and nothing when the value is empty |
| Config.ConfigStruct.ConfigSaveClient | src/common/config_loader.c:113-126 | writes the text Save describes for a host that has its NUL, or fails without a file |
| ClientContext.TextSinceHistory | src/client/main.c:100-112 | after a non-empty history packet and any lines, the buffer holds the packet's text followed by the lines in order, and the recorded length is the string's if and only if the packet had no NUL inside |
| ClientContext.TextSinceReset | src/client/main.c:518-525 | after opening a chat it holds the lines written since |
| ClientContext.RecordedIff | src/client/client_context.c:46-62 | on every run the recorded length covers the string, and is its length if and only if the last history packet since the chat was opened had no NUL inside |
| ClientContext.RunIsGood | src/client/client_context.c:46-62 | every run keeps what the buffer's invariant asks of text and recorded length |
| ClientContext.HistoryBuffer.Add | src/client/client_context.c:46-62 | strdup or realloc and strcat append the text, and NUL and recorded length stay inside the allocation |
| ClientContext.HistoryBuffer.Take | src/client/main.c:100-112 | takes over a payload as received and ignores an empty one |
| ClientContext.Play | src/client/main.c:100-112 | every sequence of openings, history packets and lines on the real buffer ends as the run of values says |
| ClientContext.RequestList.RemoveRequest | src/client/client_context.c:33-44 | shifting in place removes exactly the entry at the index, or nothing for an index outside the list |

## Left out

- Integer widths of ids: uids, conversation ids and counters are unbounded, so the wrap at 2^31 or 2^32 rows is not modelled; `participants_count` is taken to fit a C int, lengths and ports are bounded as in C.
- Field widths of incoming payloads: a request's strings are the C strings the handlers see, however long; a field filled to its last octet has no NUL in a packet, and what a client reads behind it is not modelled.
- Payloads shorter than their struct, which the handlers would read past, and NULL payloads.
- The start "[HH:MM] name: " of a history line depends on the time zone and is an arbitrary function, cut to 63 octets.
- Failures of SQL statements, of malloc and of the random generator.
- OpenSSL: SSL_write and SSL_read move any part or fail, EVP calls do what CBC and the padding say for one update and one final call, a TLS handle is identified with its descriptor; certificates and handshakes are not modelled.
- The SHA-256 key derivation of `crypto_init`: the cipher is any permutation of blocks.
- White space, signs and 0x prefixes that sscanf accepts when the stored hex was not written by `bytes_to_hex`.
- The list queries for contacts, requests and members (storage.c:325-365, 625-645) have methods but no rows here: they share the cursor loop with `Storage.Store.GetConvParticipants`.
- Config: atoi beyond a C int; paths, the home directory and the command-line host.
- The client's screens, keyboard loop, caches of server lists and locking; `app_append_history` and `app_remove_request` are taken as run under their lock.
- Logging, backups, session file, deployment scripts.
