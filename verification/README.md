# Lchat: verified models

Dafny models of the parts of the Lchat chat server whose behaviour depends on interleaving, on time or on
text processing, with proofs of what they guarantee. One module per component:

| module | component |
|---|---|
| Bus, BusRuns, BusClients, BusOrder | public broadcasts across servers over the message bus, their texts, what clients get of them, and in what order |
| Registry, Presence | OnlineMap and WSConns, and the life of TCP connections that change them |
| RateLimit | the fixed-window rate limiter |
| Sessions | the in-memory session store |
| Sanitizer | the message sanitiser, on bytes |
| History | message history with a cursor |
| Friends, Groups | the friendship and group tables, and group delivery |
| Protocol | the line protocol between the TCP client and the server |
| ClientQueue, PollGateway | the bounded queues of a TCP client and of the polling gateway |
| Escape | HTML escaping in the browser |
| Text, Common | white space and splitting, result types |

Code that runs under a write lock is one atomic step; the fan-outs to WebSocket clients hold a read lock only and
are taken apart into a beginning, one write per client, and an end. Objects with state are classes whose methods
are proved against functions of the old state; the theorems about whole runs are about those functions. Clocks,
random tokens, the outcome of a login, database failures and the order in which Go ranges over a map are inputs
or left open. Times are integers (nanoseconds); text is a sequence of bytes in Sanitizer, where lengths in bytes
matter, and of code points elsewhere. '<' and '>' occur in no longer UTF-8 sequence, so matching tags on bytes
is matching them on characters.

Where code and documentation disagree the code is modelled: the limiter is a fixed window, not a token bucket
(README.md:225), and looking a session up does not extend it (README.md:224).

Seven properties one might expect are false of the code. For each the exact condition is proved, with a failing
case:

- fanoutTCP can send on a closed channel. In every state of a run it is safe, now and after whichever close
  comes next, exactly when no login of the run registers a connection whose Offline has begun
  (`Presence.RobustIff`). In the states of the run alone it is safe exactly when no login registers a closed
  connection and no connection is closed while registered (`Presence.SafeIff`). The failing case is an idle
  timeout in the middle of a login (`Presence.FanOutCanFail`).
- OnlineMap can lose a live connection, or hold one under a name that is not its own. It is right throughout a
  run exactly when every step is clean (`Presence.RegistryExactIff`). The failing cases are a user who takes
  the address of a coming connection as name (`Presence.LiveConnectionCanBeLost`) and the rename of a user
  whose name somebody else has taken over (`Presence.KeyCanBeMovedByAnother`).
- A WebSocket client can get a group message twice, because the lock is taken anew for each member. It does
  exactly when two lookups find it, under two members' names (`Groups.TwoCopiesIff`), so not while it keeps its
  name (`Groups.OneCopyIfNameKept`). The failing case is a rename between two lookups
  (`Groups.RenameDuringDelivery`).
- The clients of a server need not get its broadcasts in one order, because fan-outs overlap. In every state of
  a run they do, now and after whichever write comes next, exactly when no fan-out begins while another on the
  same server still has a client to reach (`BusOrder.SteadyIff`); in the states of the run alone exactly when no
  write overtakes one whose fan-out began earlier (`BusOrder.OrderedIff`). The failing case has two clients with
  opposite orders (`BusOrder.OrderCanDiffer`). Other servers' broadcasts always come in log order
  (`BusClients.RelayedInLogOrder`).
- Sanitising is not idempotent. It is exactly when the text was not cut after one or two bytes of white space
  (`Sanitizer.IdempotentIff`, failing case `Sanitizer.OnceIsNotEnough`).
- Paging back through history can miss messages, because pages are ordered by time and the cursor is an id.
  It misses none, whatever the database answers, exactly when rows on different pages have strictly ordered
  timestamps (`History.LosslessIff`, failing cases `History.PagingBackCanMiss`).
- A conversation is not always understood as it was sent. It is exactly when every command is well formed and on
  one line and they come in login order (`Protocol.ConversationIff`). The failing cases are the message "who"
  (`Protocol.SayingWho`), a login whose password holds a bar (`Protocol.BarInPassword`) and a text with a newline
  (`Protocol.NewlineInText`).

The bound on what the limiter lets through in an interval is exact for every limit, window and length; in one
window's length it is one less than the usual two windows' worth (`RateLimit.SlidingBound`,
`RateLimit.SlidingBoundIsTight`).

## Model

| member | source | states |
|---|---|---|
| Bus.StepKeepsInv | internal/server/server.go:264-297 | every step of broadcastPublic, the receiver, the fan-outs under way, connects and disconnects keeps: one log entry per published call, each server's fan-outs counted exactly, foreign frames equal to the relayed log, every fan-out under way belonging to the receiver or to a call being shown |
| Bus.ExactlyOnce | internal/server/server.go:596-630 | in every reachable state, for any number of servers with distinct ids, a server has begun to fan a broadcast out once if it is the origin and has come to show it, or has handled its log entry since subscribing, and otherwise not at all |
| Bus.NoLoop | internal/server/redis_bus.go:43-51 | relaying never publishes: the log has exactly one entry per successfully published call, so never more entries than calls |
| Bus.RelayIsFaithful | internal/server/server.go:596-630 | the frames of other servers' broadcasts are exactly the log since the subscription, own entries left out, in log order and without gaps |
| BusClients.EveryFanOutReachesOnce | internal/server/server.go:277-288 | whatever overlaps, a connected WebSocket client has been offered, or is still to be written, exactly the fan-outs begun since it connected, each broadcast at most once |
| BusClients.AccountStartsNow | internal/server/wss.go:210-215 | a client's account starts with the number of fan-outs its server had begun when it connected, counted on the steps of the run |
| BusClients.StepKeepsClients | internal/server/server.go:277-288 | every step keeps that account for every client of every server, and the order of other servers' broadcasts |
| BusClients.RelayedInLogOrder | internal/server/server.go:596-630 | other servers' broadcasts reach a client in log order without gaps: those begun before it connected, those it was offered and the one it may be about to get are the relayed log since the subscription |
| BusClients.OfferedTextIsPreserved | internal/server/server.go:277-296 | every frame offered to a client is that of a broadcast asked for in the run and carries its sender, avatar and text |
| BusClients.WriteIs | internal/server/server.go:278-287 | a write adds one frame to the client's: at the origin the broadcast with the label of that moment, elsewhere what the log holds of it |
| BusClients.QuietClientIsComplete | internal/server/server.go:596-630 | when a server has caught up, a client there from the start has been offered every published broadcast exactly once |
| BusOrder.OrderIffNotOvertaken | internal/server/server.go:277-288 | a step keeps clients in the order in which fan-outs began iff it is not a write that overtakes one whose fan-out began earlier |
| BusOrder.OrderedIff | internal/server/server.go:277-288 | the same for whole runs |
| BusOrder.SteadyIff | internal/server/server.go:277-288 | in every state of a run clients are in order, now and after whichever write comes next, iff no fan-out of it begins while another on the same server still has a client to reach |
| BusOrder.QuietOrder | internal/server/server.go:277-288 | in a run without overlap, once no fan-out is under way, every client has exactly the fan-outs since it connected, in order |
| BusOrder.OrderIsCommon | internal/server/server.go:277-288 | of two clients in order that connected together, one has got a prefix of the other's broadcasts |
| BusOrder.OppositeOrders | internal/server/server.go:625-629 | from any state with two calls to show and two clients, the clients can get the two broadcasts in opposite orders |
| BusOrder.OrderCanDiffer | internal/server/server.go:277-288 | such a run exists, for two clients that connected together |
| BusRuns.TextIsPreserved | internal/server/server.go:274-296 | every fan-out anywhere is that of the c-th broadcast asked for in the run and carries its sender, avatar and text, or name and text in one line if it is a system message |
| BusRuns.LogIsPublications | internal/server/server.go:290-296 | the log is the publications that went through, in order, and what is relayed of each is its broadcast with the time label of the publication |
| BusRuns.SubscriptionStartsNow | internal/server/redis_bus.go:23-41 | a server relays from the number of publications that had gone through when it started |
| Bus.QuietStateIsComplete | internal/server/server.go:596-614 | when a server that was there from the start has caught up, it has shown every published broadcast exactly once |
| Registry.Server.Online | internal/server/user.go:40-54 | the loop drops the user's other keys and no other entry, then registers its name |
| Registry.Server.Offline | internal/server/user.go:245-252 | exactly the user's entries disappear |
| Registry.Server.RenameUser | internal/server/server.go:484-501 | succeeds iff the new name is free and the old one registered, and then moves that one entry |
| Registry.Server.RenameWSClient | internal/server/server.go:503-520 | as RenameUser, and every client is still registered under its own name, which changes with the key |
| Registry.Server.AddWSClient | internal/server/wss.go:210-215 | replaces the entry of that name; every client is registered under its own name |
| Registry.Server.RemoveWSClient | internal/server/wss.go:217-225 | removes and cancels exactly the client of that name |
| Registry.GetOnlineUsers | internal/server/server.go:437-466 | with one state per lock: names are pairwise distinct and are exactly the TCP users' names under the first lock and the WebSocket keys under the second; a TCP user's avatar wins |
| Registry.Server.ListTcp | internal/server/server.go:441-451 | the first loop lists every TCP user's name once, with the avatar of a user of that name |
| Registry.Server.ListWs | internal/server/server.go:453-464 | the second loop adds exactly the WebSocket clients whose names were not listed, each once, and changes nothing before them |
| Presence.GhostIffResurrects | internal/server/user.go:89-98 | one step leaves a registered connection whose Offline has begun iff it is the Online of a login after that |
| Presence.GhostFreeIff | internal/server/user.go:245-268 | a run has no such connection in any state iff no login in it comes after its connection's Offline |
| Presence.ChannelsAreOpen | internal/server/server.go:312-322 | in such a run fanoutTCP never meets a closed channel |
| Presence.GhostIsFatal | internal/server/user.go:256-265 | from any state with such a connection, at most its own close separates fanoutTCP from a closed channel |
| Presence.RobustIff | internal/server/server.go:312-322 | in every state of a run fanoutTCP is safe, now and after whichever close comes next, iff no login of the run registers a connection whose Offline has begun |
| Presence.SafeIff | internal/server/server.go:312-322 | in every state of a run fanoutTCP is safe iff no login of it registers a closed connection and no connection of it is closed while registered |
| Presence.KickDuringLoginBreaksFanOut | internal/server/server.go:252-261 | in any run, an idle timeout between a login's rename and its Online leads to a fan-out on a closed channel |
| Presence.FanOutCanFail | internal/server/server.go:230-261 | such a run exists for every connection and user name |
| Presence.ClosedAtMostOnce | internal/server/server.go:230-261 | in every run of any interleaving a channel is closed at most once, and once exactly when its connection has finished Offline |
| Presence.ExactIffClean | internal/server/server.go:484-501 | "OnlineMap holds exactly the live connections, each under its name or the target of its unfinished rename" survives a step iff the step is clean |
| Presence.RegistryExactIff | internal/server/user.go:146-163 | the same for whole runs: the registry is right in every state iff every step is clean |
| Presence.NewNameIff | internal/server/server.go:484-501 | with a right registry a live connection gets a new name iff nobody has it, and exactly its own key moves; otherwise nothing happens |
| Presence.AuthenticatedIff | internal/server/user.go:70-100 | in every run a connection counts as authenticated iff it has completed a login |
| Presence.LoginComesFirst | internal/server/user.go:70-160 | so nobody renames itself before a login, and nobody logs in twice |
| Presence.RegistryIsInjective | internal/server/user.go:40-54 | in every run, ghosts, lost connections and moved keys included, no two keys lead to the same connection |
| Presence.CleanRunsAreSafe | internal/server/server.go:312-322 | in a clean run no registered channel is closed |
| Presence.TakenAddressEvicts | internal/server/user.go:25-54 | a new connection whose address somebody uses as a name pushes that live connection out of the map |
| Presence.LiveConnectionCanBeLost | internal/server/user.go:153-163 | a run in which that happens exists for any two connections: one renames itself to the other's address |
| Presence.KeyCanBeMovedByAnother | internal/server/user.go:153-163 | a run in which a live connection ends up under a name not its own: u is taken offline, v logs in under u's name, u's rename moves v's key |
| RateLimit.RateLimiter.Allow | internal/server/ratelimit.go:28-50 | the answer and the new counters, with exactly the expired entries swept when a window opens, so that no other key keeps one |
| RateLimit.LimiterRefinesKeeper | internal/server/ratelimit.go:36-49 | over any run with a non-decreasing clock the sweeping limiter answers as one that never deletes |
| RateLimit.AnswersAreLocal | internal/server/ratelimit.go:36-49 | an answer depends only on the calls with the same key so far |
| RateLimit.AllowedIffRank | internal/server/ratelimit.go:36-49 | for any limit, a call is let through iff its rank since its window opened is at most the limit; a limit of 0 lets nothing through, a negative one only the calls that open a window |
| RateLimit.SlidingBound | internal/server/ratelimit.go:28-50 | with m = window + 1, any closed interval of length L lets through at most limit * (L / m + 1) calls per key if m divides L, and limit * (L / m + 2) - 1 otherwise |
| RateLimit.BoundForOneWindow | internal/server/ratelimit.go:28-50 | so at most 2 * limit - 1 in one window's length |
| RateLimit.SlidingBoundIsTight | internal/server/ratelimit.go:28-50 | for every key, limit, window and length some run lets exactly that many through |
| Sessions.MemorySessionStore.Create | internal/server/bus.go:45-59 | the session is stored with its expiry, or nothing changes when no token could be made |
| Sessions.MemorySessionStore.GetUsername | internal/server/bus.go:61-74 | the name of an unexpired session; an expired one is deleted, so a rejected token is not stored afterwards |
| Sessions.MemorySessionStore.UpdateUsername | internal/server/bus.go:76-82 | only the name of that session changes |
| Sessions.MemorySessionStore.Delete | internal/server/bus.go:84-88 | exactly that token disappears |
| Sessions.MemorySessionStore.Cleanup | internal/server/bus.go:90-98 | exactly the sessions expired before the given time disappear, and none of them is left |
| Sessions.StoreSimulatesHistory | internal/server/bus.go:45-98 | after any run with a non-decreasing clock a lookup answers as the full history of its token says, with nothing forgotten |
| Sessions.AcceptedExactlyUntilExpiry | internal/model/model.go:62-64 | a token neither recreated nor deleted is accepted iff the clock has not passed creation plus ttl, under its last name, whatever updates, lookups and cleanups happened |
| Sessions.RejectedAfterDelete | internal/server/bus.go:84-88 | a deleted token is rejected until it is created again |
| Sanitizer.StripTags | internal/server/server.go:681-688 | the loop ends after at most two passes, after one iff there was no tag, with the result of a single pass and no tag left |
| Sanitizer.OnePassIsEnough | internal/server/server.go:22 | one left-to-right pass leaves no '<' before a '>' |
| Sanitizer.RemoveTagsKeepsOutside | internal/server/server.go:22 | a pass keeps exactly the positions that no tag covers |
| Sanitizer.TrimSpaceCuts | internal/server/server.go:692 | trimming cuts a concatenation of white space code points off either end, and leaves none at the ends of the rest |
| Sanitizer.SpacesAreUnicode | internal/server/server.go:692 | the byte sequences taken for white space are exactly the UTF-8 encodings of Unicode's white space |
| Sanitizer.SanitizeInputWithLimit | internal/server/server.go:681-693 | the result is free of complete tags and at most maxLen + 3 bytes long |
| Sanitizer.SanitizedIs | internal/server/server.go:681-693 | the result is the text outside the tags, without the white space at its ends; if that text is longer than maxLen, its first maxLen bytes without the white space in front, and three dots |
| Sanitizer.SanitizedIsClean | internal/server/server.go:689-692 | cutting, marking and trimming never bring a tag back, and the result has no white space at either end |
| Sanitizer.IdempotentIff | internal/server/server.go:681-693 | a second application changes nothing iff the text was not cut after exactly one or two bytes of leading white space |
| Sanitizer.TwiceIsStable | internal/server/server.go:265 | two applications always reach a fixed point |
| Sanitizer.SanitisingSettles | internal/server/server.go:407 | any number of further applications change nothing |
| Sanitizer.OnceIsNotEnough | internal/server/server.go:689-692 | a blank in front of a text that is cut is a case where one application is not enough |
| Sanitizer.WebSocketTextIsFinal | internal/server/wss.go:155-159 | what the WebSocket path stores is a fixed point, free of tags, at most maxLen + 3 bytes |
| Sanitizer.LeadingBlanksDoNotMatter | internal/server/wss.go:155-159 | white space in front of a WebSocket message makes no difference, not even to where it is cut |
| History.MessageStore.SaveMessage | internal/db/db.go:494-520 | a message is added at the end with a larger id and comes first in the logs it belongs to and in no other, also when only reading the id back fails; when the insert fails nothing changes |
| History.HistoryShows | internal/db/db.go:396-492 | a query returns exactly the messages of its log below the cursor: public ones in the public log, a group's in the group's, private ones in that of the two people, from either side |
| History.RequestsAreWalks | internal/db/db.go:396-426 | paging back through a table that grows in the meantime is exactly paging through the rows of the first request |
| History.AsksAreWalks | internal/db/db.go:396-426 | the same for a reader who may stop early |
| History.WalkNeverRepeats | internal/db/db.go:403-408 | whatever the timestamps and the order of ties, and wherever the reader stops, no row comes twice and there are no more pages than rows, so asking ends |
| History.LosslessIff | internal/db/db.go:403-408 | every legal sequence of pages returns every row iff rows on different pages, counted off by id, have strictly ordered timestamps |
| History.PagingBack | internal/server/web.go:488-514 | on the database, for public, group and private history: no repeats and a bounded number of pages wherever the reader stops, and a prefix of the newest-first history of the first request if timestamps strictly increase; at the end nothing missed under that condition, and exactly that history if timestamps strictly increase |
| History.PagingBackCanMiss | internal/db/db.go:407-408 | on any table that violates the condition some legal answers miss a message |
| History.EffectiveLimit | internal/server/web.go:481-486 | a positive requested limit is used up to the maximum, and any other leaves the configured one; with positive configuration the result is positive |
| Friends.Database.AddFriend | internal/db/db.go:523-576 | both directions are added or nothing changes, with the outcome decided by the checks and failures in order |
| Friends.Database.RemoveFriend | internal/db/db.go:579-609 | both directions are removed or nothing changes |
| Friends.Database.IsFriend | internal/db/db.go:671-686 | an error iff the query fails; otherwise the answer, the same asked from either side |
| Friends.TableIsGraph | internal/db/db.go:523-609 | whatever fails, in every reachable state the table is symmetric, irreflexive, over existing users, and represents an undirected graph that runs the same operations by its own rules |
| Friends.SameOutcome | internal/db/db.go:523-609 | table and graph, in states that represent each other, give an operation the same outcome |
| Friends.FriendsByHistory | internal/db/db.go:523-609 | two users are friends iff the last addition between registered users or removal that went through, from either side, was an addition |
| Friends.AddAnswers | internal/db/db.go:523-576 | after any history an addition is done iff the users differ, both are registered and nothing fails; refused iff the same or, as far as the lookups answer, not registered |
| Friends.RemoveAnswers | internal/db/db.go:579-609 | after any history a removal is done iff the two are friends and the transaction does not fail; told apart from not being friends |
| Friends.RemovalFindsBothHalves | internal/db/db.go:591-602 | after any run the next operation has the outcome it has on the graph, so the second delete never finds nothing after the first found a row |
| Friends.AddThenRemove | internal/db/db.go:523-609 | adding and removing a friend that was absent restores the table |
| Groups.Store.CreateGroup | internal/db/db.go:221-262 | the group with its creator as member, a group without members when reading its id or the second statement fails, or nothing when the name is bad or taken or the first statement fails |
| Groups.Store.JoinGroup | internal/db/db.go:264-283 | succeeds iff the group exists and neither the lookup nor the insert fails, and then the pair is a membership; otherwise nothing changes |
| Groups.Store.LeaveGroup | internal/db/db.go:285-313 | succeeds iff the pair was a membership and nothing fails; the membership is gone unless the lookup or the delete failed, even if counting the rows then fails, and nothing else changes |
| Groups.Store.GetGroupMembers | internal/db/db.go:315-339 | an error iff the query fails; otherwise every member's name exactly once |
| Groups.Store.GetUserGroups | internal/db/db.go:356-378 | an error iff the query fails; otherwise exactly the groups g for which GetGroupMembers(g) lists the user, each once |
| Groups.Store.Perform | internal/server/web.go:620-682 | each action of the handler with its lookups, checks and failures, which succeeds iff it is accepted and does what it asked for; kicking only by the creator |
| Groups.MembershipFollowsHistory | internal/server/web.go:626-678 | after any history, keys are sound and a user is a member iff the last action that put the user in or took it out put it in, where registration and the creator of a group are read off the history too |
| Groups.GroupsAreCreated | internal/db/db.go:221-262 | a group exists iff a registered user got its creation through, and records the first who did as its creator |
| Groups.KickAnswers | internal/server/web.go:656-678 | after any history a kick succeeds iff the actor created the group, the target is a member and nothing fails |
| Groups.KickOnlyByCreator | internal/server/web.go:656-678 | whatever fails, a kick that changes anything is the creator's, of a member |
| Groups.CreateAnswers | internal/server/web.go:626-631 | a creation succeeds iff the actor is registered, the name is not blank, has at most 32 bytes and is not taken, and nothing fails |
| Groups.JoinAnswers | internal/server/web.go:632-636 | a join succeeds iff the actor is registered, the group exists and nothing fails |
| Groups.LeaveAnswers | internal/server/web.go:637-641 | a leave succeeds iff the actor is a member and nothing fails |
| Groups.InviteAnswers | internal/server/web.go:642-655 | an invitation succeeds iff both users are registered, the group exists and nothing fails; the actor need not be a member |
| Groups.ActionMoves | internal/server/web.go:626-678 | an action that succeeds without faults puts in or takes out exactly the one user it is about; one that fails moves nobody |
| Groups.RegisterAnswers | internal/db/db.go:175-200 | a registration succeeds iff the name is new and the insert does not fail |
| Groups.Store.BroadcastToGroup | internal/server/server.go:374-404 | succeeds iff the sender exists, the group has members and no query fails, and then offers to those registered under members' names, on TCP under one lock, on WebSocket as each member's own lookup finds the registry; otherwise to nobody |
| Groups.Deliver | internal/server/server.go:340-349 | one lookup and at most one offer per member |
| Groups.OneCopyEach | internal/server/server.go:340-349 | on an injective registry whoever is registered under a member's name gets one copy and everybody else none |
| Groups.GroupMessageReachesMembers | internal/server/server.go:340-349 | on TCP: after any history and any run of connections, exactly the connections registered under the names of members get a copy, exactly one each |
| Groups.LiveMembersGetOneCopy | internal/server/server.go:340-349 | with a right registry those are the live connections whose own names are members' |
| Groups.DeliverEach | internal/server/server.go:324-338 | one lookup and at most one offer per member, each in the registry of that moment |
| Groups.UnrelatedChangesDoNotMatter | internal/server/server.go:330-337 | taking the lock anew per member makes no difference unless the name being looked up changes hands |
| Groups.SomeCopyIff | internal/server/server.go:330-337 | however the registry changes meanwhile, a client gets a copy iff some lookup finds it |
| Groups.TwoCopiesIff | internal/server/server.go:330-337 | it gets more than one iff two lookups find it, under two members' names |
| Groups.OneCopyIfNameKept | internal/server/server.go:330-337 | a client that is never registered under another name gets exactly one copy if a lookup finds it and none otherwise, whoever else comes and goes |
| Groups.RenameDuringDelivery | internal/server/server.go:330-337 | a client whom a rename moves from one member's name to the next between their lookups gets two copies |
| Groups.GroupMessageReachesClients | internal/server/server.go:324-338 | on WebSocket: after any history, a client that keeps its name gets one copy iff the lookup of that name finds it, none if the name is not a member's, and one if it is and the client stays registered |
| Protocol.ParsedIsWellFormed | internal/server/user.go:70-243 | whatever text arrives, a command the server takes from it is well formed and belongs to the login state |
| Protocol.LineRoundTrip | cmd/client/main.go:222-252 | a well-formed command is understood as printed |
| Protocol.CredentialsOnTheWire | cmd/client/main.go:82-115 | the login and registration lines, written out |
| Protocol.MessagesOnTheWire | cmd/client/main.go:195-252 | the other lines without a group, written out |
| Protocol.GroupsOnTheWire | cmd/client/main.go:226-240 | the group lines, written out |
| Protocol.RoundTripIff | internal/server/user.go:130-242 | a printed command handed to the parser as one message is understood as itself iff it is well formed |
| Protocol.WhoIff | internal/server/user.go:130-145 | a message lists the users iff it is the keyword who, in any mixture of cases |
| Protocol.KeywordAnyCase | internal/server/user.go:130-242 | the keywords of all other commands may be in any mixture of cases too |
| Protocol.CredentialsIff | internal/server/user.go:70-129 | login and registration are taken, trimmed, iff the name has two to twenty letters, digits, underscores or Chinese characters, and rejected otherwise |
| Protocol.ReadsRename | internal/server/user.go:146-163 | rename takes all after its bar as the name and is rejected without one |
| Protocol.ReadsTo | internal/server/user.go:165-180 | to takes what comes before the next bar as the target and all the rest as the text, and wants both |
| Protocol.ReadsToAlone | internal/server/user.go:165-170 | to without a second bar is rejected |
| Protocol.ReadsGroup | internal/server/user.go:182-242 | create, join and leave with one argument; anything else with one is rejected |
| Protocol.ReadsGroupSend | internal/server/user.go:182-242 | send with a group and a text that may hold bars; anything else with two is rejected |
| Protocol.ReadsGroupAlone | internal/server/user.go:184-242 | group with a command and no argument is rejected |
| Protocol.ReadsSay | internal/server/user.go:130-242 | every other message is said aloud as it is |
| Protocol.WhoIsNotSaid | internal/server/user.go:130-145 | a public message that is the keyword who in any case is taken for the command |
| Protocol.SayingWho | internal/server/user.go:130-145 | such as the message "who" |
| Protocol.BarInPassword | internal/server/user.go:73-88 | a login whose password holds a bar is rejected, for every user name |
| Protocol.NewlineInText | internal/server/server.go:232-245 | a text with a newline in it arrives as two messages |
| Protocol.ConversationRoundTrip | internal/server/server.go:232-245 | for any list of well-formed one-line commands in login order, cutting the client's stream into lines, trimming and parsing gives back the same commands, all and in order |
| Protocol.ConversationIff | internal/server/server.go:232-245 | on the wire, a conversation is understood as it was sent iff every command is well formed and on one line and they come in login order |
| Protocol.AnyStream | internal/server/server.go:232-245 | whatever text arrives, the parser gets exactly its lines that are not blank, in order and trimmed, the last even if it is not ended |
| Protocol.ValidNameIsField | internal/server/user.go:292-294 | every valid user name meets the conditions on a field |
| ClientQueue.User.SendMsg | internal/server/user.go:56-68 | the message without the newlines it ends with is queued if fewer than 100 are, and dropped otherwise |
| ClientQueue.NothingLostNothingReordered | internal/server/user.go:270-290 | in every run, written, in hand and queued are exactly the offers that found fewer than 100 messages queued, counted on the steps of the run, in order, each without the newlines SendMsg strips |
| ClientQueue.Conservation | internal/server/server.go:312-322 | offered = written + in hand + queued + dropped |
| PollGateway.NoLineLost | cmd/web/main.go:102-120 | in every run, responses, running poll, channel and the line being handed over are all lines read that hold more than line ends, in order, each without its line end; only a line caught by closing stops there |
| PollGateway.ResponsesArePrefix | cmd/web/main.go:159-197 | responses always show the first of those lines, at most 20 each; until close nothing is lost and the channel holds at most 256 |
| PollGateway.ShortResponseMeansEmptied | cmd/web/main.go:172-195 | a response of an open session with some lines, but fewer than 20, means that the channel was empty |
| Escape.FivePassesAreOne | web/app.js:133-136 | the five whole-string replacements equal one character-by-character replacement |
| Escape.NoMarkupLeft | web/app.js:133-136 | no '<', '>', '"' or apostrophe is left |
| Escape.UnescapeRecovers | web/app.js:133-136 | a one-pass decoder recovers every text, so escaping is injective |

## Left out

- TCP clients in the bus model: the fan-out theorems are about WebSocket clients; remote system messages do not reach TCP clients.
- Private and group messages over the bus: the receiving branches exist but nothing publishes them; TCP text over the bus differs from local text.
- Lost, corrupted or reordered bus messages: the bus is a reliable ordered log from the moment of subscription; a failed publish is modelled.
- The Redis session store, SQLite, bcrypt, TLS, WebSocket framing, JSON and base64.
- Removal of a WebSocket entry when its handler ends: it goes by the name taken at connect, so it can hit a replacement client or miss a renamed one, and no ownership is claimed.
- The drain of a closing TCP channel: messages still queued at that point are discarded.
- Scanner line limit: a line over 64 KB ends the connection; lines are of any length here.
- Lower case beyond ASCII: no other code point lower-cases to a letter of a command keyword.
- Negative message limits: the Go slice expression fails on them, so maxLen is at least 0.
- Negative and zero page limits: SQLite takes a negative limit as none.
- Registry.Server.ListTcp: takes the users' names as fixed during the loop; they are written without mapLock, so a rename in the middle can make the list hold a name twice or an old one.
- Registry.GetOnlineUsers: takes the users' names as fixed during the first loop, for the same reason.
- Agreement between online names and database usernames after a rename: renaming does not touch the users table.
- Groups.RegisterAnswers: leaves out the length checks on a new user's name and password, and the hashing, which change nothing for groups.
- The rate limits in front of the handlers.
- Avatars on disk, stickers, metrics, configuration, the rest of the browser code: only easy properties.
