# SelectChatServer: a model of the chat server's logic

This project models the logic thread of a chat server: the pool of users, the lobbies with their slots and
dictionaries, the rooms, and the packet handlers that move users between them. One packet or network notification
is one step. A user's membership is recorded in up to five places (its own fields, a slot, two lobby dictionaries,
a room list); the project proves how far these agree, over every sequence of events.

## How the model is built

* `Types.dfy`, `State.dfy`, `Handlers.dfy`: the server as a value. A pointer to a pool entry is the entry's position
  in the pool. `Handlers.Step` is one event, `Handlers.Run` a whole sequence. A step that dereferences the end of the
  slot array is `Undefined`, and the run is `Lost` from there on.
* `UserImpl.dfy`, `RoomImpl.dfy`, `LobbyImpl.dfy`, `UserManagerImpl.dfy`, `PacketProcessImpl.dfy`: the classes of the
  program with their mutable fields, pointers and loops. Every method is proved against the value model, up to
  `PacketProcess.Process`, whose reply, new state and outgoing packets are exactly those of `Handlers.Step`. The
  handlers declared in PacketProcess.h are those of PacketProcess.cpp, PacketProcessLobby.cpp, PacketProcessLogin.cpp
  (login at lines 16-40, lobby list at 42-68) and PacketProcessRoom.cpp (enter at 17-96, leave at 98-151, chat at
  153-195).
* `Invariant.dfy`, `Slots.dfy`, `Registry.dfy`, `Rooms.dfy`: what single steps keep.
* `Reachable.dfy`, `History.dfy`, `Closing.dfy`: theorems about all runs and about closing a session.
* `Answers.dfy`, `Replies.dfy`, `Titles.dfy`: what every request comes to, from any state with the core invariant and
  for every choice of repairs: code, packets and whole state; the reply law; and the titles of rooms.
* `Divergence.dfy`: where a call departs from its evident intent, with the exact condition under which it does not.
* `Runs.dfy`, `Sessions.dfy`, `PoolSpace.dfy`, `SlotLeak.dfy`, `RoomLeak.dfy`, `Configurations.dfy`, `SelfNotice.dfy`:
  the same over whole runs: for each departure a run from the start that shows it, and the exact configurations in
  which no run does.
* `MainLoop.dfy`, `MainImpl.dfy`: the packet queue, the table of handlers and the loops of `Main::Run`, as functions
  and over the live objects. The loops are in Main.cpp at lines 74-90, the queue in TcpNetwork.cpp at 56-67.
* `Roster.dfy`, `Refinement.dfy`: a description of the server without pool, indices, slots or keys, and the proof
  that the repaired server answers exactly like it.

## As written and repaired

`Types.Patch` has six switches. All false is the code as written (`AS_WRITTEN`), all true the repaired code
(`REPAIRED`). A theorem that names neither holds for every combination, so for the code as written.

| switch | as written | repaired |
|---|---|---|
| R1 `eraseBySession` | `UserManager::RemoveUser` erases the session entry by pool index (UserManager.cpp:70) | by session |
| R2 `clearByUser` | `Lobby::RemoveUser` compares the slot number with the user index (Lobby.cpp:124) | the slot's user |
| R3 `keyByText` | the ID dictionaries are keyed by character address (UserManager.h:44, Lobby.h:83) | by the text |
| R4 `countMembers` | `Lobby::GetUserCount` returns the number of slots (Lobby.cpp:135) | the number of members |
| R5 `passByUser` | `Room::NotifyChat` passes over the member whose index is the sender's session (Room.cpp:130) | the sender |
| R6 `notifyIfMember` | closing notifies the room a stale index leads to (PacketProcess.cpp:86-91) | only if the user was a member |

Addresses used as keys are told apart by the object they point into (`Types.Key`): a place in a receive buffer, the
ID string inside a pool entry, or a string local to the running function. Objects alive at the same time do not
overlap, the receive buffers and the pool live as long as the server, and a pool entry's ID string stays put between
`Set` and `Clear`, so this distinguishes exactly what addresses distinguish.

The network hands out the sessions 0 to n - 1, n being the number of clients that the user pool is built for too
(Main.cpp:34 and 43, TcpNetwork.cpp:43 and 170-183). `Runs.InRange` says that a run keeps to these. All runs that show
a departure do; so an exact condition over runs holds for the sessions there are. Where a condition holds for all
sessions whatever, both forms are stated.

Two more findings need no switch. `Main::LoadConfig` never sets the lobby limit (Main.cpp:112), so with the shipped
configuration nobody enters a lobby; and `Main::Run` assigns the packet id where it means to compare (Main.cpp:84),
so the inner loop as written is never left and hands every packet to `Process` under an id without a handler. The
other theorems are about `Process` given the packets it was meant to get, and about the loop with its comparison.

## Model

| member | source | states |
|---|---|---|
| Refinement.RepairedServerIsTheRoster | ChatServer/LogicLib/PacketProcess.cpp:56-108 | over every event sequence and every configuration that fits a short, the repaired server returns the same codes, sends the same packets to the same sessions in the same order as the roster, ends in a state that looks like it, and is never undefined |
| Refinement.StepRefines | ChatServer/LogicLib/PacketProcess.cpp:56-108 | one step of the repaired server is one step of the roster: state, code and packets |
| Refinement.PopulationIsMembership | ChatServer/LogicLib/Lobby.cpp:61-79 | the number of sessions placed in a lobby is the size of its index dictionary |
| Refinement.ClientsAreConfirmed | ChatServer/LogicLib/UserManager.cpp:29-59 | free entries, logged-in sessions, and users that lost their session to a repeated login together number the pool, so full means full |
| Refinement.LoginRefines | ChatServer/LogicLib/UserManager.cpp:45-59 | login with R1 and R3 repaired adds to a finite map from session to ID exactly when the ID is new and the pool not full, with the same code otherwise; on a session already logged in it takes up an entry and an ID that no session leads to |
| Refinement.CloseRefines | ChatServer/LogicLib/PacketProcess.cpp:77-108 | close drops the session from that map and from its room, and tells exactly those left |
| Invariant.InitKeepsInv | ChatServer/LogicLib/Lobby.cpp:19-38 | the freshly built server satisfies the core invariant |
| Invariant.StepKeepsInv | ChatServer/LogicLib/PacketProcess.cpp:56-64 | every event keeps it: pool split by the deque, blank free entries, user fields, index dictionaries and room lists all agreeing |
| Invariant.RunKeepsInv | ChatServer/LogicLib/PacketProcess.cpp:56-64 | so does every run |
| Invariant.LeaveAllInSteps | ChatServer/LogicLib/PacketProcess.cpp:83-99 | the teardown on close is a room leave then a lobby leave for a user in a room, otherwise a lobby leave at the index it still carries, and a stale room index changes no room |
| Answers.LookupIsExact | ChatServer/LogicLib/UserManager.cpp:77-87 | from any state with the core invariant, a session is unknown exactly when it has no entry, unconfirmed exactly when its entry is a free one, and otherwise leads to a confirmed user |
| Answers.StrangersAreTurnedAway | ChatServer/LogicLib/PacketProcessLobby.cpp:23-28 | for each of the six requests that look a user up: without a confirmed user nothing changes, and the one response tells an unknown session from one whose entry is free |
| Answers.LoginAnswer | ChatServer/LogicLib/UserManager.cpp:45-59 | refused exactly for a taken key, or else when all entries are confirmed; otherwise the whole state with the first free entry in use, a session that has an entry keeping it |
| Answers.LobbyListAnswer | ChatServer/LogicLib/LobbyManager.cpp:46-63 | only at LOGIN, and then every lobby in order with its slots, or repaired the users that say they are in it |
| Answers.LobbyEnterAnswer | ChatServer/LogicLib/PacketProcessLobby.cpp:16-57 | each refusal with its exact condition, full being told by the users' own records; undefined exactly when no slot is null; otherwise the whole state and the limits sent |
| Answers.LobbyLeaveAnswer | ChatServer/LogicLib/PacketProcessLobby.cpp:59-97 | refused exactly outside LOBBY; otherwise the whole state: domain, slot as written or repaired, and both dictionary entries |
| Answers.RoomCreateAnswer | ChatServer/LogicLib/Room.cpp:44-65 | refused exactly when all rooms are in use; otherwise the first unused room has the title asked for and the user alone, and nobody else is told; a room for nobody is opened and the user refused |
| Answers.RoomJoinAnswer | ChatServer/LogicLib/Room.cpp:55-65 | each refusal with its exact condition; otherwise appended at the end, title kept, and those who were there told in their order |
| Answers.RoomLeaveAnswer | ChatServer/LogicLib/Room.cpp:72-91 | refused exactly outside ROOM; otherwise the whole state, an emptied room being unused and untitled, and those left told in their order |
| Answers.RoomChatAnswer | ChatServer/LogicLib/Room.cpp:93-131 | refused exactly outside ROOM; otherwise nothing changes and every member but the one passed over gets ID and message in list order |
| Answers.CloseAnswer | ChatServer/LogicLib/PacketProcess.cpp:77-108 | nothing without a confirmed user; otherwise the whole state: blank entry last in the deque, session and ID entries, slot, lobby entries and room, as written and repaired |
| Replies.EveryRequestIsAnswered | ChatServer/LogicLib/PacketProcessLobby.cpp:16-97 | the reply law for every request: of the packets sent exactly the last is a response, it goes to the session of the request, and it carries the code returned, or for a failed lookup in LobbyEnter the code looked up |
| Replies.NotificationsAreNotAnswered | ChatServer/LogicLib/PacketProcess.cpp:71-108 | a close sends nothing but notices of the departure, a connection or a packet without a handler nothing at all |
| Replies.RunAnswersAll | ChatServer/LogicLib/PacketProcess.cpp:56-64 | in every run each request is answered once and on its own session |
| Titles.StepKeepsTitles | ChatServer/LogicLib/Room.cpp:37-53 | over every event, a room that stays in use keeps its title, one taken into use gets the title asked for, and one recycled loses it |
| Titles.UnusedMeansUntitled | ChatServer/LogicLib/Room.cpp:37-42 | in every reachable state a room that is not in use has no title |
| Titles.TitleIsTheOpeners | ChatServer/LogicLib/Room.cpp:37-53 | in every run a room in use has the title of the creating request before which it was not in use and since which it has been |
| Reachable.MembershipIsExact | ChatServer/LogicLib/PacketProcessLobby.cpp:30-97 | in every reachable state a user is in LOBBY or ROOM exactly when a lobby's index dictionary has it, and that lobby is the one at its lobby index, and no other |
| Reachable.FreeIsListedNowhere | ChatServer/LogicLib/UserManager.cpp:39-43 | a free entry is in no lobby and no room, so a reused entry starts without membership |
| Reachable.RoomIsFoundFromUser | ChatServer/LogicLib/User.h:56-75 | a room that lists a user is the one found through the user's lobby and room index, and the user is in ROOM, however stale indices may be |
| Reachable.CloseRemovesEverywhere | ChatServer/LogicLib/PacketProcess.cpp:77-108 | after a close the user is cleared, last in the deque and listed nowhere |
| Reachable.PoolIsConserved | ChatServer/LogicLib/UserManager.cpp:17-43 | the deque never repeats an entry, shares none with the confirmed users, and both together are the pool, each entry carrying its position |
| Reachable.DeadErrorBranches | ChatServer/LogicLib/PacketProcessLobby.cpp:79-93 | no run gets out of a handler one of the codes listed for that handler: the duplicate entry of lobby enter, the invalid lobby and non-member of lobby leave, the invalid lobby and failed creation of room enter, the invalid lobby or room and both refusals of room leave, the invalid lobby or room of chat |
| Reachable.LimitsHold | ChatServer/LogicLib/Room.cpp:55-65 | no lobby or room exceeds its maximum in any reachable state, an unused room is empty, and every lobby is found at its own index |
| Reachable.RepairedRunsAreDefined | ChatServer/LogicLib/Lobby.cpp:107-131 | with R2 repaired no run dereferences past the slots, and slots and dictionary agree throughout |
| Reachable.LobbyDictionariesAlwaysMatch | ChatServer/LogicLib/Lobby.cpp:75-92 | both dictionaries of a lobby always list the same users and have the same size, although insert ignores present keys |
| Reachable.IdsAreNeverShared | ChatServer/LogicLib/UserManager.cpp:45-59 | with R3 repaired no two confirmed users share an ID |
| Configurations.SomebodyGetsInIff | ChatServer/LogicLib/Lobby.cpp:61-64 | some run gets a user into LOBBY or ROOM exactly when there are users, a lobby, and a lobby limit above zero |
| Configurations.ShippedConfigurationAdmitsNobody | ChatServer/LogicLib/Lobby.cpp:61-64 | so with the configuration `Main::LoadConfig` builds, whose lobby limit is zero, no user is ever in LOBBY or ROOM |
| Slots.BelowLimitHasFreeSlot | ChatServer/LogicLib/Lobby.cpp:63-79 | when slots and dictionary agree and the size check passes, the search finds a null slot |
| Slots.ClearsOwnSlot | ChatServer/LogicLib/Lobby.cpp:119-131 | repaired, exactly the user's own slot is cleared, and none if it has none |
| Slots.StepKeepsSlots | ChatServer/LogicLib/Lobby.cpp:61-131 | with R2 repaired every event is defined and keeps slots and dictionary in agreement |
| Registry.StepKeepsIds | ChatServer/LogicLib/UserManager.cpp:45-75 | every event keeps the lobby ID dictionaries, and with R3 repaired the manager's, holding exactly their users under their keys |
| Registry.StepKeepsSessions | ChatServer/LogicLib/UserManager.cpp:45-75 | with R1 repaired every event leaves each session leading to its own confirmed user, and every event but a repeated login leaves each confirmed user reached by its session |
| Reachable.SessionsStayBijective | ChatServer/LogicLib/UserManager.cpp:45-75 | with R1 repaired each session leads to its own user along every run, and along every run without repeated logins each confirmed user is reached by its session |
| Rooms.StepMovesOneRoom | ChatServer/LogicLib/Room.cpp:44-91 | an event changes at most one room, which opens, gains one member at the end, or loses one |
| State.LobbyState.AllocRoom | ChatServer/LogicLib/Lobby.cpp:147-156 | the lowest unused room, or none exactly when all are used |
| Invariant.EraseMember | ChatServer/LogicLib/Room.cpp:77-85 | erasing the entry found removes exactly that user and leaves the list free of repetitions |
| History.PoolIsFifo | ChatServer/LogicLib/UserManager.cpp:29-43 | over any run, the entries free at the start followed by those given back are those handed out followed by those free at the end |
| History.ReleasedIsReusedInTurn | ChatServer/LogicLib/UserManager.cpp:29-43 | an entry given back while k are free is handed out by exactly the (k+1)-th later successful login |
| History.MasterIsLongestPresent | ChatServer/LogicLib/Room.cpp:55-91 | in every reachable state the master is exactly the member with the earliest entry |
| History.MasterSuccession | ChatServer/LogicLib/Room.cpp:67-91 | while a room stays occupied mastership moves only when the master leaves, to the next in line |
| Closing.SendToAllDelivers | ChatServer/LogicLib/Room.cpp:93-100 | each member but the one passed over is addressed once, in list order |
| Closing.CloseNotifies | ChatServer/LogicLib/PacketProcess.cpp:86-91 | exactly who is told of a close, as written and repaired: for a user in a room the members that remain, in entry order, and nobody when the room was recycled |
| Closing.CloserIsToldIff | ChatServer/LogicLib/PacketProcess.cpp:86-91 | from any state with the core invariant, a closing session is told of its own close exactly when another member of the room notified carries its session number |
| Sessions.NoCloserIsTold | ChatServer/LogicLib/PacketProcess.cpp:77-108 | with R1 repaired, in no run is a close told to the session that closes |
| SelfNotice.CloserHearsItself | ChatServer/LogicLib/PacketProcess.cpp:77-108 | a run of eight requests after which session 0 is told of its own close |
| SelfNotice.NobodyHearsItselfIff | ChatServer/LogicLib/PacketProcess.cpp:77-108 | in all runs no session is told of its own close exactly when R1 is repaired or the configuration does not let two users meet in a room, or (R6 not repaired) in a room that one of them still carries |
| Closing.SpuriousLeaveNotice | ChatServer/LogicLib/PacketProcess.cpp:86-91 | closing a user in no room still sends a notice exactly when R6 is not repaired and the room its indices name has members |
| Closing.CloseTouchesOnlyItsUser | ChatServer/LogicLib/PacketProcess.cpp:77-108 | with R1 and R2 repaired a close changes no other user, slot, entry of a lobby or manager dictionary, room the user was not in, order within its room, or session lookup |
| Closing.CloseForgetsTheWrongSession | ChatServer/LogicLib/UserManager.cpp:67-72 | from any state with the core invariant, other sessions keep their lookup exactly when no other session leads to the closed entry nor, unless R1 is repaired, is numbered like it |
| Closing.CloseKeepsSessionsIff | ChatServer/LogicLib/UserManager.cpp:61-75 | a close leaves each session leading to its own user exactly when R1 is repaired or the pool index was the closed session |
| Sessions.NoCloseInterferes | ChatServer/LogicLib/PacketProcess.cpp:77-108 | with R1 and R2 repaired, in no run does a close touch another client |
| Divergence.SessionEntryErased | ChatServer/LogicLib/UserManager.cpp:61-75 | the closed session's entry goes away exactly when R1 is repaired or pool index and session are equal |
| Divergence.RelogAfterClose | ChatServer/LogicLib/UserManager.cpp:45-87 | after a close, a login answered with success on the same session works exactly when R1 is repaired, index and session are equal, or no other entry was free |
| Divergence.ClosedSessionActsForTheNext | ChatServer/LogicLib/UserManager.cpp:45-87 | after a close, the next successful login of another session makes the closed session act for that client exactly when R1 is not repaired, index and session differ, and no other entry was free |
| Sessions.RecycledSessionIsLockedOut | ChatServer/LogicLib/UserManager.cpp:45-87 | a run of four requests that shows a client welcomed at login and refused afterwards |
| Sessions.ClosedSessionActsForAnother | ChatServer/LogicLib/UserManager.cpp:45-87 | a run of four requests after which closed session 1 leads to an entry of session 0's client, and closing either affects the other |
| Sessions.TwoSessionsShareAUser | ChatServer/LogicLib/UserManager.cpp:45-87 | a run with one login per connection after which sessions 0 and 1 are one user, and closing either leaves the other unknown |
| Sessions.SessionsLeadToTheirUsersIff | ChatServer/LogicLib/UserManager.cpp:61-75 | in all runs over the sessions there are, every session leads to its own confirmed user exactly when R1 is repaired or there is at most one client |
| PoolSpace.RoomForOneMore | ChatServer/LogicLib/UserManager.cpp:29-59 | while every confirmed user is reached by its session, a session without an entry finds a free one |
| PoolSpace.EntryOneIsLost | ChatServer/LogicLib/UserManager.cpp:61-75 | a run of four requests after which nobody is logged in and an entry stays confirmed that no session leads to |
| PoolSpace.IdleSessionIsTurnedAway | ChatServer/LogicLib/UserManager.cpp:45-59 | for every number of clients above one, a run with one login per connection in which an idle session is refused for a full pool |
| PoolSpace.LoginsFindRoomIff | ChatServer/LogicLib/UserManager.cpp:45-59 | with one login per connection, no run refuses a login for a full pool exactly when R1 is repaired or there is at most one client |
| Divergence.LoginKeepsBijectionIffFresh | ChatServer/LogicLib/UserManager.cpp:54-56 | a successful login leaves each session leading to its own user, and each confirmed user reached by its session exactly when the session was not logged in |
| Sessions.SecondLoginIsStray | ChatServer/LogicLib/UserManager.cpp:54-56 | whatever is repaired, a run of two logins on one session after which an entry is confirmed that no session leads to |
| Sessions.UsersAreReachedIff | ChatServer/LogicLib/UserManager.cpp:54-56 | whatever is repaired, in all runs every confirmed user is reached by its session exactly when there is at most one client |
| Divergence.SlotClearedIffNumberMatches | ChatServer/LogicLib/Lobby.cpp:119-131 | whatever the slots, the code as written clears the one the repaired code clears exactly when the slot numbered like the user is the first to hold the user, or is not occupied and no slot holds the user |
| Divergence.LobbyRoundTrip | ChatServer/LogicLib/Lobby.cpp:61-95 | entering and leaving restores slots and dictionaries exactly when R2 is repaired or the first free slot has the user's number, as written whatever earlier leaves did to the slots |
| Divergence.LobbyVisit | ChatServer/LogicLib/PacketProcessLobby.cpp:16-97 | the same through the two handlers, for the whole server |
| Divergence.NonMemberLeave | ChatServer/LogicLib/Lobby.cpp:81-95 | a leave of a non-member changes nothing exactly when R2 is repaired or the slot of that number is not occupied |
| SlotLeak.RunsAreDefinedIff | ChatServer/LogicLib/Lobby.cpp:107-131 | all runs are free of the dereference past the slots exactly when R2 is repaired, or there is at most one user, or no lobby, or the lobbies admit nobody |
| SlotLeak.SlotsRunOut | ChatServer/LogicLib/Lobby.cpp:107-131 | in every other configuration some run of the code as written leaks slot after slot until an entry dereferences the end |
| SlotLeak.SlotsAlwaysAgreeIff | ChatServer/LogicLib/Lobby.cpp:107-131 | slots and dictionaries agree throughout all runs under exactly the same condition |
| Divergence.DuplicateMeansSameBuffer | ChatServer/LogicLib/UserManager.cpp:47-56 | as written a login is refused as a duplicate exactly when an earlier login succeeded out of the same receive-buffer place |
| Divergence.DuplicateMeansSameId | ChatServer/LogicLib/UserManager.cpp:47-56 | repaired, exactly when a confirmed user has the ID |
| Divergence.LoginKeepsIdsDistinctIff | ChatServer/LogicLib/UserManager.cpp:45-59 | a successful login keeps the IDs of confirmed users distinct exactly when no confirmed user had that ID |
| Configurations.SameIdTwice | ChatServer/LogicLib/UserManager.cpp:45-59 | a run of two logins after which both users are confirmed under the same ID |
| Configurations.IdsStayDistinctIff | ChatServer/LogicLib/UserManager.cpp:45-59 | in all runs confirmed users have distinct IDs exactly when R3 is repaired or there is at most one user |
| Divergence.CountIsRightIffFull | ChatServer/LogicLib/Lobby.cpp:133-136 | as written the reported count is the number of members exactly when the lobby is full |
| Configurations.OneMemberCountedAsTwo | ChatServer/LogicLib/LobbyManager.cpp:46-63 | a run after which a lobby with one member and two slots is listed with two users |
| Configurations.ListsAreTrueIff | ChatServer/LogicLib/LobbyManager.cpp:46-63 | in all runs the lists of lobbies report the true numbers of members exactly when R4 is repaired, or nobody can log in, or there is no lobby, or the lobbies admit nobody |
| Divergence.ChatGoesToReceivers | ChatServer/LogicLib/Room.cpp:93-131 | what a chat request sends, and to whom |
| Divergence.ChatReachesTheOthers | ChatServer/LogicLib/Room.cpp:123-131 | chat reaches exactly the other members exactly when R5 is repaired or the sender's index is its session |
| Configurations.SenderHearsItself | ChatServer/LogicLib/Room.cpp:123-131 | a run after which the client on session 1, alone in its room, is sent its own message |
| Configurations.ChatsReachTheOthersIff | ChatServer/LogicLib/Room.cpp:123-131 | in all runs over the sessions there are, chat reaches exactly the other members exactly when R5 is repaired, or there is at most one client, or nobody can ever be in a room |
| Configurations.StrangerIsAnnounced | ChatServer/LogicLib/PacketProcess.cpp:86-91 | a run in which closing a user back at LOGIN tells another that it left a room they never shared |
| Configurations.IdleClosesAreQuietIff | ChatServer/LogicLib/PacketProcess.cpp:86-91 | in all runs closing a user in no room tells nobody exactly when R6 is repaired, or there is at most one user, or nobody can ever be in a room |
| Divergence.PoolIndexIsPosition | ChatServer/LogicLib/UserManager.cpp:17-27 | every entry gets its position as index exactly for at most 32768 users |
| Divergence.LobbyIsFoundAtPosition | ChatServer/LogicLib/LobbyManager.cpp:23-44 | every lobby is found under its position and knows it exactly for at most 32767 lobbies |
| Divergence.EnteredLobbyIsFoundAgain | ChatServer/LogicLib/Lobby.cpp:73-76 | the lobby entered is the one found from the user's index afterwards |
| RoomLeak.UsedRoomsHaveMembers | ChatServer/LogicLib/Room.cpp:44-65 | every room in use has a member in all runs exactly when rooms hold at least one user or none can be created |
| MainLoop.LoopNeverEnds | ChatServer/LogicLib/Main.h:30 | as written, after any number of turns and whatever is queued, the inner loop is still going, has answered nothing and left the server as it was, with the queue drained |
| MainLoop.RequestArrives | ChatServer/LogicLib/PacketProcess.cpp:39-64 | a packet made of any request, with its id and body, is taken for that request, and its id is in the table |
| MainLoop.PacketIsUnderstood | ChatServer/LogicLib/PacketProcess.cpp:39-64 | whatever packet arrives, the handler called is that of its id, for its session, with exactly what it reads of the body, and none exactly when the id is none of the ten registered |
| MainLoop.RepairedLoopIsARun | ChatServer/LogicLib/PacketProcess.cpp:39-64 | with the comparison repaired the loop is left at the first packet without an id or when the queue is empty, and until then is the run of the state machine over the packets in order; it goes wrong only where that run does or at an id outside the table |
| MainLoop.ServedInOrder | ChatServer/ServerNetLib/ITcpNetwork.h:20-22 | over the outer loop, however packets arrive in portions, those handled so far in order followed by those still queued are those that arrived, packets without an id apart; state, codes and packets sent are those of the run over the requests handled |
| MainLoop.QueueIsEmptied | ChatServer/ServerNetLib/ITcpNetwork.h:20-22 | without new arrivals, one visit more than there are packets without an id empties the queue |
| MainImpl.Main.Dispatch | ChatServer/LogicLib/PacketProcess.cpp:56-64 | takes the step of the state machine for the event that the packet is decoded to; an id outside the table is undefined |
| MainImpl.Main.HandleQueue | ChatServer/LogicLib/Main.h:30 | the repaired inner loop over the live objects: codes, new state, packets sent and remaining queue are those of the run over the queued packets |
| MainImpl.Main.Run | ChatServer/LogicLib/Main.h:30 | the outer loop over the live objects, for any arrivals: state, codes and everything sent are those of the run over the requests served in order, which with those still queued are all that arrived |
| UserImpl.User.Clear | ChatServer/LogicLib/User.h:26-34 | a blank entry that keeps its index |
| UserImpl.User.Set | ChatServer/LogicLib/User.h:36-43 | confirmed and in LOGIN, both place indices kept |
| UserImpl.User.EnterLobby | ChatServer/LogicLib/User.h:56-60 | in LOBBY at that index |
| UserImpl.User.LeaveLobby | ChatServer/LogicLib/User.h:62-65 | in LOGIN, the lobby index kept |
| UserImpl.User.EnterRoom | ChatServer/LogicLib/User.h:70-75 | in ROOM at both indices |
| RoomImpl.Room.Clear | ChatServer/LogicLib/Room.cpp:37-42 | unused, untitled, empty |
| RoomImpl.Room.CreateRoom | ChatServer/LogicLib/Room.cpp:44-53 | taken into use under the title given, or refused when in use and left as it is |
| RoomImpl.Room.EnterUser | ChatServer/LogicLib/Room.cpp:55-65 | appended at the end, or refused when unused or full |
| RoomImpl.Room.IsMaster | ChatServer/LogicLib/Room.cpp:67-70 | true exactly for the head of the list |
| RoomImpl.Room.LeaveUser | ChatServer/LogicLib/Room.cpp:72-91 | the first entry with that index erased, the room recycled when empty, or the error |
| RoomImpl.Room.SendToAllUser | ChatServer/LogicLib/Room.cpp:93-100 | the packets appended to the network log |
| RoomImpl.Room.NotifyEnterUserInfo | ChatServer/LogicLib/Room.cpp:102-109 | the newcomer's ID to everyone but the newcomer |
| RoomImpl.Room.NotifyLeaveUserInfo | ChatServer/LogicLib/Room.cpp:111-121 | the ID to everyone left, nothing if the room was recycled |
| RoomImpl.Room.NotifyChat | ChatServer/LogicLib/Room.cpp:123-131 | the message to everyone but the index passed over |
| RoomImpl.BroadcastIsSendToAll | ChatServer/LogicLib/Room.cpp:93-100 | sending over the object list is sending over the members of the value model |
| LobbyImpl.Lobby.constructor | ChatServer/LogicLib/Lobby.cpp:19-38 | all slots null, all rooms fresh, at the narrowed index |
| LobbyImpl.Lobby.AddUser | ChatServer/LogicLib/Lobby.cpp:107-117 | the first null slot filled; false where the original dereferences the end |
| LobbyImpl.Lobby.RemoveUser | ChatServer/LogicLib/Lobby.cpp:119-131 | the first matching slot nulled, matched by number as written or by user repaired |
| LobbyImpl.Lobby.EnterUser | ChatServer/LogicLib/Lobby.cpp:61-79 | the whole new lobby and user, each refusal, or the undefined case |
| LobbyImpl.Lobby.LeaveUser | ChatServer/LogicLib/Lobby.cpp:81-95 | the whole new lobby and user; the slot goes before the membership check |
| LobbyImpl.Lobby.GetUserCount | ChatServer/LogicLib/Lobby.cpp:133-136 | the slots as written, the members repaired, narrowed to short |
| LobbyImpl.Lobby.AllocRoom | ChatServer/LogicLib/Lobby.cpp:147-156 | the first unused room object or null |
| LobbyImpl.LobbyManager.constructor | ChatServer/LogicLib/LobbyManager.cpp:23-36 | the lobbies of the initial state, each knowing its position when there are at most 32767 |
| LobbyImpl.LobbyManager.GetLobby | ChatServer/LogicLib/LobbyManager.cpp:38-44 | the lobby at that position, the count being narrowed to short, or null |
| LobbyImpl.LobbyManager.SendLobbyListInfo | ChatServer/LogicLib/LobbyManager.cpp:46-63 | one entry per lobby, in order |
| UserManagerImpl.UserManager.constructor | ChatServer/LogicLib/UserManager.cpp:17-27 | the pool and deque of the initial state, each entry knowing its position when there are at most 32768 |
| UserManagerImpl.UserManager.AllocUserObjPoolIndex | ChatServer/LogicLib/UserManager.cpp:29-37 | the front of the deque, or null when empty |
| UserManagerImpl.UserManager.ReleaseUserObjPoolIndex | ChatServer/LogicLib/UserManager.cpp:39-43 | the entry cleared and put at the end |
| UserManagerImpl.UserManager.AddUser | ChatServer/LogicLib/UserManager.cpp:45-59 | the whole new manager state and code |
| UserManagerImpl.UserManager.RemoveUser | ChatServer/LogicLib/UserManager.cpp:61-75 | the whole new manager state and code |
| UserManagerImpl.UserManager.GetUser | ChatServer/LogicLib/UserManager.cpp:77-87 | the confirmed user of a session, or which of the two errors |
| PacketProcessImpl.PacketProcess.constructor | ChatServer/LogicLib/PacketProcess.cpp:26-54 | the initial state, with nothing sent |
| PacketProcessImpl.PacketProcess.Login | ChatServer/LogicLib/PacketProcess.h:56 | takes the login step: AddUser, answered with its code |
| PacketProcessImpl.PacketProcess.LobbyList | ChatServer/LogicLib/PacketProcess.h:58 | takes the lobby-list step, only from LOGIN |
| PacketProcessImpl.PacketProcess.LobbyEnter | ChatServer/LogicLib/PacketProcessLobby.cpp:16-57 | takes the lobby-enter step, each error with its code and packet |
| PacketProcessImpl.PacketProcess.LobbyLeave | ChatServer/LogicLib/PacketProcessLobby.cpp:59-97 | takes the lobby-leave step |
| PacketProcessImpl.PacketProcess.RoomEnter | ChatServer/LogicLib/PacketProcess.h:64 | takes the room-enter step, creating or not |
| PacketProcessImpl.PacketProcess.RoomLeave | ChatServer/LogicLib/PacketProcess.h:66 | takes the room-leave step, answered under the room-enter id |
| PacketProcessImpl.PacketProcess.RoomChat | ChatServer/LogicLib/PacketProcess.h:68 | takes the chat step, answered under the room-enter id on success |
| PacketProcessImpl.PacketProcess.NtfSysCloseSession | ChatServer/LogicLib/PacketProcess.cpp:77-108 | takes the close step |
| PacketProcessImpl.PacketProcess.DevEcho | ChatServer/LogicLib/PacketProcess.cpp:110-123 | sends the data back to the session and changes nothing |
| PacketProcessImpl.PacketProcess.Process | ChatServer/LogicLib/PacketProcess.cpp:56-64 | for every event, reply, state and packets are those of the state machine |

## Left out

- `Main::Run` as written is on values only (`MainLoop.LoopNeverEnds`): a method cannot loop for ever. The methods have the comparison repaired, and `Run` ends when the given arrivals do.
- The objects after undefined behaviour: nothing is said about them, and a run that reaches it has no later states.
- The order in which the network hands out sessions, and that a session's packets come between its connect and its close: a run is any sequence of events.
- Sockets, buffers and threads (`TcpNetwork`): `SendData` appends to a log; a full send buffer, which drops the packet, is not modelled.
- `ConnectedUserManager` and the connect notification: login timeouts touch none of the modelled state.
- The fixed array of 20 lobbies in the lobby-list response: the response is a sequence as long as there are lobbies.
- Packet layouts, string copies and their size limits: IDs, titles and messages are strings.
- `Lobby::SendToAllUser`: no handler calls it.
- `Lobby::Release`, destructors, logging and the console.
- Configurations whose numbers do not fit a short, beyond the two limits in `PoolIndexIsPosition` and `LobbyIsFoundAtPosition`.
