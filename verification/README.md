# Chat rooms: a verified model of the server

This project models a chat server written in C and proves what it promises: the poll loop with its handlers, the
three structures that the handlers keep in agreement (poll array, user hash table, room array), the linked hash table
behind the user table, and the framing and message formats that join clients to the server. Everything is checked with
`dafny verify dfyconfig.toml`.

## How the model is built

The code that changes things in place is modelled by classes and methods over a heap; each method is proved against
functions on sequences and maps, and what the program promises is proved about those functions.

| file | models |
|---|---|
| `Bits.dfy`, `Sequences.dfy` | machine words, bitwise operators, rounded-up division; swap-with-last removal |
| `Users.dfy`, `Rooms.dfy`, `PollfdArray.dfy` | users, rooms with 25 slots, the room array, the growing and shrinking poll array |
| `HashTable.dfy` | the table: insertion-order list, bucket chains, doubling, deletion, integrity check |
| `MergeOrder.dfy`, `HashSort.dfy` | the bottom-up merge sort, on sequences and by relinking in place |
| `Jenkins.dfy` | the 32-bit mixing function and the hash loop |
| `UserTable.dfy` | the table as a map from descriptor to user, and histories of operations |
| `Messages.dfy` | the byte format of the four message kinds, serializers and deserializers |
| `Net.dfy` | byte streams that move in arbitrary pieces, and the errors they meet; `sendall`, `recvall`, lists of frames |
| `Protocol.dfy` | the server as a state machine: poll array, users, member lists; one event per step |
| `Runs.dfy`, `Abstraction.dfy` | whole runs: the chat log, conservation, refinement of a map, dead branches |
| `World.dfy` | the server together with its clients: per connection what was said, handled and told, and the bytes on the socket |
| `Pass.dfy` | one pass of the poll loop, its input, and sequences of passes |
| `Rounds.dfy` | what a round does to each connection, told by the events that poll returned for it |
| `EndToEnd.dfy` | from what a client sends to what arrives at the members, over whole runs |
| `Server.dfy` | the handlers and the poll loop over the heap structures, tied to the state machine and to the sockets |

`Servers.Server.Valid` is the invariant that ties the layers together. The poll array, the user table and the rooms in
memory are exactly those of a state `st` that satisfies `Protocol.Inv`. For every connection, a link records what the
client has said since it connected, how much of that is handled, and what the client was told. The bytes that wait on a
socket are the frames of what is said and not handled, and the bytes written to it are the frames of what was told,
unless a send to that client has failed.

Every handler is proved to take this world to `Worlds.Next` of it. `Servers.Server.Serve` plays a script of any length:
what the clients send before each round, what poll returns for each descriptor, what accept returns, the time at which
each client is served, and where there is memory. It returns one finished pass for each round, and its final world is
the run of the world over the history of these passes, so what is proved of `Worlds.WorldRun` holds of the poll loop. A
server that halts before the end of the script has met a failed send or receive, or a client that it could not accept.

The specification functions that methods are proved against are themselves pinned by laws in plain numbers and bytes:
what a round does to a connection by the bits of its events, the answer to a join by the rooms before and after and by
the text, the frames byte by byte, the mixing function by sums, products and quotients, a bucket by a remainder.

## Assumptions

- The host is little-endian; `time_t` and `TIMESTAMP` are 64-bit, `unsigned` is 32-bit.
- `accept` returns a descriptor that is not open, below 2^31. `send` takes at least one byte or fails. The first
  `recv` of a frame returns its whole 4-byte length. The listener never reports POLLHUP.
- Clients send whole frames that the serializers made, of the three kinds that clients send; a client may stop
  sending, reset its connection or hang up at any time. A stream that has run dry when the server reads from it has
  been closed. Which frames arrive when, how the bytes are cut into pieces, what `poll` returns, what `accept` returns,
  the time, which allocations of the poll array fail, and which sends and receives fail are left open everywhere.
- A comparison function passed to the sort ranks elements by something the sort does not change.

Where the documentation and the code differ, the model follows the code. The comments in
`types/messages/chat_message.h:54-61` give the timestamp 4 bytes; the code writes 8, of which the last 4 are zero and
the first 4 carry the time modulo 2^32. The comment on `handle_chat_message` (`server.c:202-203`) says that a message
goes to all other clients in the room; the code sends it to the sender as well.

## Model

| member | source | states |
|---|---|---|
| Servers.Server.constructor | server.c:434-467 | the three structures start in agreement: only the listener is polled, nobody is listed or connected, five rooms are empty |
| Servers.Server.HandleNewClient | server.c:131-156 | a descriptor that accept returned becomes a polled, anonymous user in no room; on failure nothing has changed; it fails only if accept or the allocation fails |
| Servers.Server.HandleChatMessage | server.c:212-251 | a sender in no room is told so; else every slot of the room is told the stamped message; -1 exactly when a send of the broadcast has failed, and then it is to a member, and those before it were served |
| Servers.Server.SayInRoom | server.c:221-250 | the decoded text, stamped with the time and the sender's name, goes to the slots of the sender's room |
| Servers.Server.SendToRoom | server.c:226-246 | one serialized frame is told to each member in slot order; on a failed send it is known which member it was and that those before were served |
| Servers.Server.HandleNameMessage | server.c:262-270 | the decoded name is the user's name afterwards, the user is told so, everything else is unchanged |
| Servers.Server.HandleJoinMessage | server.c:282-315 | memory and what the user is told follow the join step: unknown room, own room, full room (after the old room was left) and success; `Abstraction.JoinAnswer` and `Abstraction.JoinOutcome` say what that step is |
| Servers.Server.MoveToRoom | server.c:301-312 | leaving the old room comes first, so a full target leaves the user in no room |
| Servers.Server.ReceiveFrame | server.c:333-351 | exactly the client's first unhandled message is taken off its stream, and the lookup of its user never fails; 0 only at the end of the stream with everything handled or after a reset in this call; -1 only after a failed receive in this call |
| Servers.Server.HandleClientMessage | server.c:331-380 | 1 when exactly the next message was handled as a step, 0 when the stream has ended with everything handled or the client has reset it, -1 only when the receive of this call has failed, or the message is a chat to a room and a send of it has failed |
| Servers.Server.UnlinkClient | server.c:407-426 | the user leaves its room and the table; neither removal can fail |
| Servers.Server.HandleClientTermination | server.c:399-432 | always succeeds for a polled client: poll array, room, table and socket all forget exactly this client |
| Servers.Server.SendReplyMessage | server.c:165-197 | the client is told the reply; a failed send breaks this connection only and changes no other structure |
| Servers.Server.SendFrame | utils/net_utils.c:11-29 | sending a frame tells the client one more message and appends its bytes to the stream, or breaks the connection; all other streams stay |
| Servers.Server.ServeEntry | server.c:479-522 | hang-up disconnects, input on the listener connects what accept returned, input on a client is its next message or its end; an entry is removed only at an index above 0; it halts only when this receive or a send of this chat has failed, or the waiting client cannot be accepted |
| Servers.Server.ServeClient | server.c:504-521 | input on a client: the message handled is the next one of the client, or the client is disconnected because its stream has ended with everything handled, or because it has reset the connection |
| Servers.Server.PollTurn | server.c:477-523 | a turn adds exactly one visit to the log, of the entry at its index, and moves the index so that no entry is skipped when the last one moves in; the index never underflows |
| Servers.Server.PollPass | server.c:471-523 | a pass terminates; unless it halts for a cause it visits every entry of the snapshot with its own events, those with events exactly once, and serves no descriptor twice; the world afterwards is the run of what was served, and as many clients were cut off as had reset |
| Servers.Server.Round | server.c:469-524 | one round on a given input: all arrivals stand in the streams, then one pass on what poll returned fits the input and leads to the world reached |
| Servers.Server.Serve | server.c:469-524 | on any script there is one finished pass per round, each fitting its own input and starting where the one before ended, and the server's memory and sockets are those of the run over the whole history; if it halts earlier, a send or receive has failed or a waiting client could not be accepted |
| Rounds.RoundOfClient | server.c:477-522 | for each client connected when poll returns: with bit 16 in its events its connection is gone after the round; with bit 1 alone exactly one more of its messages is handled, or it is gone because it had sent no more or had reset the connection; with neither it is left alone |
| Rounds.RoundOfListener | server.c:494-503 | after the round exactly those are newly connected that accept returned, with nothing said or handled, and that only if the listener had bit 1 in its events |
| Rounds.RoundOrder | server.c:477-514 | clients are visited in the order of the poll array until one is disconnected; right after that the last descriptor, which has taken its place, is visited, or the client just accepted |
| Rounds.VisitOrder | server.c:490-514 | the same on the entries of the poll array: none is skipped when the index is stepped back |
| Rounds.RoundTimes | server.c:506 | each message is handled with the time at which its client was served |
| Rounds.ArrivalsAreSaid | utils/net_utils.c:31-91 | what clients send before a round joins what they have said, in order, and nothing else changes |
| Rounds.EveryRound | server.c:469-524 | each round of a script starts in the world where the one before has ended |
| Rounds.CannotAcceptWhen | server.c:131-156 | a waiting client cannot be accepted exactly if accept returned no new descriptor below 2^31 or there is no memory |
| Servers.Server.Arrive | server.c:333-334 | what a client sends stands behind what it has sent before, and nothing else changes |
| Protocol.StepKeepsInv | server.c:131-432 | every step keeps the agreement of poll array, users and rooms: each user polled once, each in exactly the member list its room names, no room above 25 |
| Protocol.LeaveRoomKeepsInv | types/room.c:23-45 | leaving a room keeps the agreement and takes the user out of every member list |
| Protocol.EnterRoomKeepsInv | types/room.c:6-21 | entering a room with a free slot keeps the agreement |
| Protocol.DisconnectKeepsInv | server.c:399-432 | a disconnect keeps the agreement, with the listener still at index 0 |
| Protocol.DecimalReadsBack | server.c:291-314 | a room number in a reply consists of decimal digits without a leading zero that read back as the number |
| Runs.Run | server.c:469-524 | every state that a run reaches satisfies the agreement |
| Runs.BroadcastOnce | server.c:234-245 | a broadcast reaches every member exactly once and nobody else |
| Runs.StepDeliversHeard | server.c:212-251 | what one step delivers to a client as chat is what it logs for the client's room |
| Runs.DeliveredIsHeard | server.c:212-251 | over any run the chats delivered to a client are exactly the log entries whose room was the client's room when they were handled, in log order |
| Runs.HeardIsAt | server.c:234-245 | the chats a client hears sit at increasing positions of the log, exactly those of its room at the time |
| Runs.MemberIffInRoom | types/room.c:14-16 | a client is in a member list if and only if its own room field names that room |
| Abstraction.StepRefines | server.c:282-315 | every step on arrays and slots is the abstract step on a map from id to name and room |
| Abstraction.RunRefines | server.c:469-524 | every run refines the abstract run |
| Abstraction.JoinOutcome | server.c:287-314 | a join ends in the target if it exists and is the own room or not full, in no room if it is full, and changes nothing if it does not exist; the old room is kept if and only if the room does not exist, is the own one, or is full and there was none |
| Abstraction.JoinTouchesOnlyRequester | server.c:282-315 | a join changes neither any other user nor any other user's membership in any room |
| Abstraction.JoinAnswer | server.c:287-314 | a join is answered by one reply, to the requester: "you have joined room r" if and only if it was not in r before and is now; "room r is full" if and only if r exists, was not its own, and it is in no room now; "you are already in room r" if and only if r was its own; "room r does not exist" if and only if it does not |
| Abstraction.RoomlessAnswer | server.c:214-219 | a chat from a client in no room is answered to that client only, with the text told |
| Abstraction.NameOutcome | server.c:262-270 | the name of the requester and nothing else changes, and the reply is "set name to" and the name |
| Abstraction.ConnectOutcome | server.c:140-150 | a new client is polled last, has the name "anonymous" and room 0, and is told nothing |
| Abstraction.DisconnectOutcome | server.c:399-432 | the client is in no structure afterwards; everybody else stays polled, listed and in their rooms; nobody is told |
| Abstraction.SlotsAreOccupants | types/room.c:6-45 | a room's slots hold exactly the users whose room it is, one slot each |
| Abstraction.SlotsConserved | types/room.c:14-41 | the user counts of all rooms add up to the number of users in a room |
| Abstraction.PollsConserved | server.c:140-151 | the poll array has one entry more than there are users |
| Abstraction.Conservation | server.c:469-524 | both equations hold in every reachable state |
| Abstraction.NameIsLastSet | server.c:262-266 | in every reachable state a user's name is the one it set last since connecting, or the initial one |
| Abstraction.LastNameWins | server.c:262-270 | the last-set name is that of the last name message, or "anonymous" if none came since the client connected |
| Abstraction.NoConsistencyFailure | server.c:401-426 | in every reachable state the lookups find the user, its room exists and lists it, its poll index is above 0, and the poll array can double without 32-bit overflow |
| Passes.PassAdvances | server.c:477-523 | whether the entry stays or the last one moves into its place, visited and remaining entries together stay the snapshot plus what was appended |
| Passes.PassServesOnce | server.c:477-523 | of a finished pass: entries with events are visited once, and no descriptor is served twice |
| Passes.LogGrows | server.c:477-523 | each served visit extends the run of the world by its event; idle visits add nothing |
| Passes.TraceIsRun | server.c:469-524 | passes that follow one another are one run of the world over their history |
| Worlds.StepIsDeliverable | server.c:165-178 | every message a step sends goes to a connected client and fits its buffer, so no reply is cut off |
| Worlds.NextKeepsInv | server.c:331-432 | whatever happens, every user has one link and every link one user; no more is handled than was said, and all that is told fits the buffers |
| Worlds.ServerRuns | server.c:469-524 | leaving the clients out, a run of the world is a run of the server |
| Worlds.StreamHead | utils/net_utils.c:41-60 | a waiting stream starts with the frame of the first unhandled message, and reading it leaves the frames of the others |
| Worlds.StreamTold | utils/net_utils.c:11-29 | a frame written to a connection keeps all streams those of what was told, also when its sending has failed anywhere in the frame |
| EndToEnd.LinkGrows | server.c:331-380 | while a client stays connected its link grows by exactly what it says, what is received from it, which is what was next, and what is delivered to it |
| EndToEnd.SinceConnected | server.c:131-156 | for every connected client: the messages received from it since it connected, followed by the unread ones, are everything it has sent since; it was told exactly what was delivered to it since, nothing from an earlier user of the descriptor |
| EndToEnd.ChatsReceived | server.c:212-251 | the chats a client was told are exactly the global log since it connected, restricted to the entries of its room at the time |
| EndToEnd.CommonOrder | server.c:234-245 | for two clients, each connected at a time of its own: the chats on both streams are log entries in log order, common ones come in the same order on both, and an entry logged after both had connected for a room both were in is on both |
| EndToEnd.ChatReachesMembers | server.c:221-246 | a chat is told once to each member and to nobody else; its frame decodes to the text as sent, the sender's name, and the time modulo 2^32 |
| EndToEnd.ReplyReachesRequester | server.c:165-197 | any other message is answered by one reply, told to its sender and to nobody else |
| EndToEnd.ChatEndToEnd | server.c:221-246 | at any point of any run of a fresh server: the chat served is the next message that its sender has put on its connection; each client in the room that has stayed still has it on its stream at the end, with the sender's last-set name (or "anonymous"), the text as sent and the time modulo 2^32; others were told nothing |
| HashTables.HashTable.Find | lib/uthash.h:745-764 | returns the element with the key if there is one, null only if there is none |
| HashTables.HashTable.Add | lib/uthash.h:396-415 | keeps the table sound, appends to the insertion order, and puts the element in front of its home chain, or doubles the table exactly when the thresholds say so |
| HashTables.HashTable.MakeTable | lib/uthash.h:212-241 | a new table has 32 empty buckets and its first element as head and tail |
| HashTables.HashTable.AppendList | lib/uthash.h:278-284 | the list pointers spell out the old order followed by the new element, and tail is the new element |
| HashTables.HashTable.AddToTable | lib/uthash.h:337-345 | counts the new element and files it in the bucket its hash value selects |
| HashTables.HashTable.AddToBkt | lib/uthash.h:767-786 | pushes on the chain; the table doubles if and only if the chain has reached its threshold and expansion is not off |
| HashTables.HashTable.AdditionDoubles | lib/uthash.h:767-786 | an addition doubles the table exactly if its chain, found by the remainder of the hash value, has then ten elements for each unit of pressure plus one and expansion is not off; otherwise it stands in front of that chain |
| HashTables.HashTable.ExpandBuckets | lib/uthash.h:833-883 | twice the buckets with the same elements, insertion order untouched; ideal length is the rounded-up mean, nonideal items the total excess over it, pressure per bucket as counted; two ineffective expansions in a row switch expansion off |
| HashTables.HashTable.IdealLength | lib/uthash.h:846-848 | shift and mask compute the rounded-up quotient of items by new buckets |
| Bits.CeilIsQuotient | lib/uthash.h:846-848 | the ideal length is (items + buckets - 1) / buckets |
| HashTables.HashTable.DrainBucket | lib/uthash.h:851-869 | empties one old bucket, each element to the front of its new chain, and counts those beyond the ideal length |
| HashTables.HashTable.SlotDoubles | lib/uthash.h:430-433 | with twice the buckets an element of bucket b goes to bucket b or b plus the old number |
| HashTables.HashTable.SlotIsRemainder | lib/uthash.h:430-433 | the bucket of an element is its hash value modulo the number of buckets |
| HashTables.HashTable.ChosenIsReversed | lib/uthash.h:850-870 | a new chain is the reverse of the old chain filtered to the elements that select it |
| HashTables.HashTable.ChosenReverses | lib/uthash.h:850-870 | of two elements on a new chain, the one in front was behind the other on the old chain |
| HashTables.HashTable.ExpandMultIsPressure | lib/uthash.h:856-861 | the pressure counted for a bucket is zero up to the ideal length, else the smaller of its excess and its length over the ideal length, rounded up |
| HashTables.ExcessCountsPlaces | lib/uthash.h:851-869 | the number of nonideal items is the number of places on the chains behind the ideal length, and with length zero the number of all elements |
| HashTables.HashTable.PartitionDoubled | lib/uthash.h:850-870 | after doubling the chains still hold each element once, in its home bucket |
| HashTables.HashTable.DelInBkt | lib/uthash.h:789-802 | the chain loses exactly this element and every other chain stays |
| HashTables.HashTable.DelFromList | lib/uthash.h:458-472 | the insertion order loses exactly this element; head, tail and both pointers agree |
| HashTables.HashTable.Delete | lib/uthash.h:450-477 | keeps the table sound, takes the element out of the insertion order and out of its home chain only |
| HashTables.HashTable.FsckBucket | lib/uthash.h:524-540 | passes a bucket if and only if its back links and its count agree with the forward chain |
| HashTables.HashTable.Fsck | lib/uthash.h:516-563 | passes if and only if back links agree with forward links on list and chains, counts are chain lengths, and both totals are the number of items |
| HashTables.HashTable.IntactMeansLinked | lib/uthash.h:516-563 | what the check tests means that all pointers spell out the list and the chains and that all counts are right |
| HashTables.HashTable.ValidPassesFsck | lib/uthash.h:516-563 | the invariant kept by every operation implies all that the integrity check tests |
| MergeOrder.MergePermutes | lib/uthash.h:917-957 | a merge loses and invents nothing |
| MergeOrder.MergeSorted | lib/uthash.h:917-957 | merging two sorted runs gives a sorted run |
| MergeOrder.MergeStable | lib/uthash.h:930-939 | elements that rank equal keep their order, those of the first run first |
| MergeOrder.PassProgress | lib/uthash.h:899-969 | a pass is a stable permutation, doubles the length of sorted runs, and the last one leaves one sorted run |
| MergeOrder.StableOrder | lib/uthash.h:930-939 | what the lists of equal elements say: two elements that rank equal stand in the result as they stood before |
| HashSort.MergeRuns | lib/uthash.h:917-957 | in place, the next two runs come out merged behind the list under construction |
| HashSort.FindRunEnd | lib/uthash.h:908-915 | steps over one run or to the end of the list, whichever comes first |
| HashSort.Pass | lib/uthash.h:900-962 | relinks the list into the merged runs, ends it, and reports at most one merge exactly when one pair of runs was all |
| HashSort.RunPasses | lib/uthash.h:896-969 | terminates with a sorted stable permutation whose pointers agree |
| HashSort.Sort | lib/uthash.h:890-972 | the table stays sound; its insertion order is a permutation of the old one, sorted by the comparison, and elements that rank equal stand as they stood before |
| Jenkins.MixIsBijective | lib/uthash.h:634-645 | the nine updates are undone from either side, so mixing is a bijection on triples of words |
| Jenkins.MixUpdates | lib/uthash.h:634-645 | the nine updates in plain arithmetic: differences modulo 2^32, each xored with the quotient by 2^13, 2^12, 2^5, 2^3 or 2^15, or with the product by 2^8, 2^16 or 2^10 modulo 2^32 |
| Bits.XorBits | lib/uthash.h:634-645 | bit k of the exclusive or is the sum modulo 2 of the two bits k |
| Bits.LeftShiftIsProduct | lib/uthash.h:637-643 | a left shift by k is the product with 2^k modulo 2^32 |
| Bits.ShiftIsDivision | lib/uthash.h:636-644 | a right shift by k is the quotient by 2^k |
| Bits.AndBits | lib/uthash.h:430-433 | bit k of the bitwise and is the product of the two bits k |
| Jenkins.HashJen | lib/uthash.h:647-686 | the loop and the fall-through switch compute the last word of the triple that `Jenkins.FullBlock` and `Jenkins.LastBlock` describe |
| Jenkins.FullBlock | lib/uthash.h:654-669 | twelve key bytes, as three little-endian words, are added to the three words modulo 2^32, which are mixed before the next block |
| Jenkins.LastBlock | lib/uthash.h:670-686 | fewer bytes count as filled up with zeros; the key length is added to the third word, in which the key bytes stand one place higher |
| Jenkins.ShortKeysEndApart | lib/uthash.h:647-686 | different keys of equal length up to twelve bytes never end in the same triple |
| UserTables.KeyBytesInjective | lib/uthash.h:495-498 | different int keys have different bytes |
| UserTables.IdHashIsMix | lib/uthash.h:647-686 | the hash value of an id is the last word of the mix of (0x9e3779b9 + id) modulo 2^32, 0x9e3779b9 and 0xfeedbef3 |
| UserTables.IdsEndApart | lib/uthash.h:647-686 | different ids never leave the hash function with the same three words |
| UserTables.UserTableFind | data_structures/user_table.c:52-57 | the element with the id, or null exactly if no element has it |
| UserTables.UserTableAdd | data_structures/user_table.c:8-33 | fails exactly if the id is present; else one new anonymous user in no room at the end of the order, all other users unchanged |
| UserTables.UserTableDelete | data_structures/user_table.c:35-50 | fails exactly if the id is absent; else exactly its element is gone |
| UserTables.HistoryIsMap | data_structures/user_table.c:8-57 | after any history an id is present, once, if and only if its last addition was not followed by a deletion |
| UserTables.LastAddedMeans | data_structures/user_table.c:8-57 | that is: some addition of the id has no deletion of it behind it |
| UserTables.IterationIsInsertionOrder | data_structures/user_table.c:8-57 | iteration order is the order of the additions still in effect |
| UserTables.Apply | data_structures/user_table.c:8-57 | one operation answers as the map from id to user and takes it to the next map; no user's name or room changes |
| UserTables.Replay | data_structures/user_table.c:8-57 | in every history the table is a map from id to user: an addition fails exactly for a present id, a deletion exactly for an absent one, find answers with the very user that was added, presence follows the history, users keep their data, and the integrity check passes after every operation |
| PollfdArrays.PollfdArray.constructor | data_structures/pollfd_array.c:31-53 | empty, with the initial capacity |
| PollfdArrays.PollfdArray.Resize | data_structures/pollfd_array.c:18-29 | a new buffer with the same contents, or no change at all |
| PollfdArrays.PollfdArray.Append | data_structures/pollfd_array.c:55-77 | contents grow by the new entry, capacity doubles only when full, nothing changes on failure |
| PollfdArrays.PollfdArray.Delete | data_structures/pollfd_array.c:79-101 | the entry is gone, the one that was last stands at its index and all others stay at theirs; the capacity halves at half full; a failed halving does no harm |
| PollfdArrays.PlayPolls | data_structures/pollfd_array.c:55-101 | over any history without failed allocations in which no append meets a full array of the last 32-bit capacity: no entry is lost, the capacity is 5 times a power of two, and it is 5 or less than twice the length |
| PollfdArrays.DoublingFits | data_structures/pollfd_array.c:62-63 | a capacity can be doubled in 32 bits if and only if it is below 5 * 2^29 |
| Sequences.SwapRemoveMultiset | data_structures/pollfd_array.c:91-92 | moving the last entry into the gap loses exactly the removed entry |
| Rooms.Room.AddUser | types/room.c:6-21 | fails exactly on a full room; else the id is the last member and the user's room is this one |
| Rooms.Room.RemoveUser | types/room.c:23-45 | fails exactly if the user is elsewhere; else the last slot moves to the slot of the user, all others stay at theirs, and the user is in no room; the search stops at a member |
| Rooms.RoomArray.constructor | data_structures/room_array.c:7-33 | room i + 1 at index i, all empty, their number reduced to one byte |
| Rooms.RoomArray.GetRoom | data_structures/room_array.c:35-44 | null exactly for ids outside 1 to len; else the room carrying the id |
| Messages.RoundTrip | types/messages/chat_message.c:12-88 | decoding a frame gives back the message (time modulo 2^32), the header is the frame's length, the kind byte picks the right decoder, and it stops exactly at the end |
| Messages.RoundTripShort | types/messages/name_message.c:9-57 | the same for names, joins and replies |
| Messages.PrefixFree | types/messages/message.c:3-20 | no frame is a proper prefix of another |
| Messages.KindByte | types/messages/message.h:9-16 | byte 4 of a frame is 0 for a chat, 1 for a name, 3 for a join and 4 for a reply |
| Messages.ChatFrame | types/messages/chat_message.c:12-62 | a chat byte by byte: length, kind, low 32 bits of the time and four zeros, name with its length and a NUL, text with its length and a NUL, all numbers big-endian |
| Messages.NameFrame | types/messages/name_message.c:9-44 | a name of up to 49 bytes, byte by byte |
| Messages.JoinFrame | types/messages/join_message.c:9-39 | a join is 0, 0, 0, 6, 3 and the room |
| Messages.ReplyFrame | types/messages/reply_message.c:9-44 | a reply of up to 99 bytes, byte by byte |
| Messages.NetworkOrder4 | types/messages/chat_message.c:31-43 | what htonl leaves in memory is network byte order, and ntohl undoes it |
| Messages.NetworkOrder2 | types/messages/chat_message.c:53-57 | the same for htons and ntohs |
| Messages.ChatSerialize | types/messages/chat_message.c:12-62 | the cursor fills a buffer of exactly the announced length with the format of a chat |
| Messages.ChatDeserialize | types/messages/chat_message.c:64-88 | the cursor reads timestamp, name and text where the format has them |
| Messages.NameSerialize | types/messages/name_message.c:9-44 | the buffer is the format of a name message, given byte by byte |
| Messages.NameDeserialize | types/messages/name_message.c:46-57 | reads the name where the format has it |
| Messages.JoinSerialize | types/messages/join_message.c:9-39 | the buffer is 0, 0, 0, 6, 3 and the room id |
| Messages.JoinDeserialize | types/messages/join_message.c:41-48 | reads the room id where the format has it |
| Messages.ReplySerialize | types/messages/reply_message.c:9-44 | the buffer is the format of a reply, given byte by byte |
| Messages.ReplyDeserialize | types/messages/reply_message.c:46-57 | reads the reply where the format has it |
| Messages.GetMessageType | types/messages/message.c:3-20 | chat, name, join and reply exactly for the kind bytes 0, 1, 3 and 4; for the frame of any message, the kind of that message |
| Net.SendAll | utils/net_utils.c:11-29 | however the pieces fall, the whole buffer is on the stream once, or a proper prefix of it and an error |
| Net.RecvAll | utils/net_utils.c:31-91 | however the pieces fall, exactly the first frame is consumed and returned; 0 only when the stream ends before the frame does or this call met a reset; -1 only when this call met another error |
| Net.FirstFrame | utils/net_utils.c:57-60 | the header of a stream of frames tells where the first ends and the rest of the list begins |
| Net.EncodeAllConcat | utils/net_utils.c:11-29 | the bytes of two lists of frames in a row are those of the joined list |
| Net.SendEach | utils/net_utils.c:11-29 | sending a list of messages puts exactly the concatenation of their frames on the stream |
| Net.ReceiveMessage | server.c:333-353 | one call consumes exactly one frame and decodes the message it carries |
| Net.ReceiveAll | utils/net_utils.c:31-91 | repeated receives return exactly the list that was sent, in order, and stop at its end |

## Left out

- PollfdArrays.PollfdArray.Append: requires that the doubled capacity fits 32 bits; where the product would wrap is not modelled. In the server this is proved never to happen.
- PollfdArrays.PlayPolls: covers histories in which no append needs to double a capacity of 5 * 2^29, which is exactly where the product wraps.
- UserTables.UserTableAdd: does not model a failing allocation of the user.
- Rooms.Room.RemoveUser: requires that a user whose room field names the room is one of its members; in the server this is proved of every reachable state.
- HashTables.HashTable.Add: requires that no element has the key, as the library asks of its callers; the user table checks it first.
- Messages.ChatDeserialize: requires field lengths that stay within the frame and the buffers; malformed frames are not modelled, and neither are the bytes behind a NUL in name and text buffers.
- Servers.Server.HandleClientMessage: has no branch for message kinds that clients do not send and for a failed user lookup; both are proved unreachable for streams of client frames.
- `pollfd_array_append` keeps a pointer to the buffer from before a resize; the model writes into the current buffer, which is what is meant.
- `recvall` with a first piece shorter than the length field.
- Allocation failure in serializers, in the receive buffer and in the hash table (where the library exits).
- The pointer from every element to its table, the offset between element and handle, and key pointers and lengths: elements and handles are one object with one integer key.
- The hash table's Bloom filter, selection, replacement, in-order addition and other hash functions, which are not used here; counters that wrap around at 2^32.
- Reply texts are modelled in full; `vsnprintf` itself is not, because no reply reaches its limit.
- Socket set-up, address lookup, `poll` failing, fairness of `poll`, real time, `localtime`, logging.
- The client's terminal loop and command parsing; a client is a source and a sink of frames.
- Servers.Server.Serve: of a server that halts it claims that some send or receive has failed since the start, or that a client could not be accepted in the missing round; that it is the receive or the broadcast of the last turn is claimed by `ServeEntry`. Nothing is claimed of the state in which the server halts.
- What is on the stream of a client after a send to it has failed.
