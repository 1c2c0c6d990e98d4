# Data structures and protocols of the game server, modelled and proved

The server keeps ranking lists, logs out silent players, draws a player's buildings on a grid, shows the newest chat
messages, frames messages over TCP, and settles queues, cards and levels whenever a player happens to ask. The modules
here model those parts in the form the server gives them (objects updated in place stay classes, loops stay loops) and
prove what each part is for. `dafny verify dfyconfig.toml` checks all of them.

| module | part of the server |
|---|---|
| `SkipLevels`, `Skiplists`, `RankItems`, `RankList` | the skip list with spans, and the ranking list on it |
| `TimerList`, `TimerWheel`, `WheelRuns` | the ring of countdowns that logs silent players out |
| `BuildingMap` | the map of the cells taken by a player's buildings |
| `ItemPool`, `ChatQueue` | the pool of reusable nodes and the bounded queue of chat messages |
| `ShortRank` | the short ranking list: a sorted array and the index from keys to places |
| `Framing`, `Receivers`, `Messages` | length-prefixed frames, the receive loops, and messages from sender to handler |
| `MakingQueue`, `Workshop`, `WorkshopRuns` | buildings made one after the other, settled lazily |
| `MonthCard` | daily mails for month cards, settled at any time |
| `Levels` | experience of players and cats |
| `IpTable` | the two-level table of address ranges |
| `SeqEdit` | sequences with a row put in or taken out |

## Reading the main results

* **Ranking.** `Skiplists.Skiplist.Valid` says of every link of every layer where it leads and how many rows it spans
  (`NodeOk`, `LayerAt`); `Insert` and `DeleteNode` repair the links layer by layer as the code does and keep all of it.
  `RankList` shares row objects between the skip list and the map from keys, and relates both to a plain table: the
  list shown is *the* ranking of the table (`RankingIsUnique`), so it does not depend on the updates or tower heights
  that led to it, and a rank counts the rows ahead by value, time and id (`RankCountsAhead`).
* **Countdowns.** The specification is a map from players to the seconds they have left. `TimerWheel` proves that one
  round of the loop over the ring of linked lists does to that map exactly what its requests and the seconds elapsed
  say. `WheelRuns` draws the consequences for whole runs: the deadline is exact.
* **Buildings.** `Exact` says that the map names, for each cell, the building standing on it, and nothing else.
  Every operation keeps it, and the rebuild from the table gives the very same map.
* **Chat.** A push turns the messages on show into those not expired, of a full channel all but the oldest, and the new
  one behind them; over a whole run that is the longest tail of everything sent that is in date and fits.
* **Frames.** `Parse` cuts off all frames there are; `Drain` does what one read does. They differ exactly on streams
  where a length 0 has another length behind it.
* **Settling lazily.** A workshop's books balance over any run of calls (`WorkshopRuns.BooksBalance`). Polling a
  workshop, settling a month card, gaining experience and feeding a cat in several steps gives what one step gives, or
  fails to under a condition that is proved.

## Model

| member | source | states |
|---|---|---|
| SkipLevels.NextInsert | libs/utils/skiplist.go:105-121 | a new tower takes over, on each layer it reaches, exactly the link that passes its place; every other link keeps its ends |
| SkipLevels.FirstIsVisible | libs/utils/skiplist.go:171-184 | the first tower a layer offers at or behind a place has only lower ones between, so lower towers are all a search sees there |
| Skiplists.Skiplist.Insert | libs/utils/skiplist.go:76-131 | for every height from 1 to 32: the row goes behind exactly the greater ones, and all links, back links, spans, tail, layer count and height counts are again those of the new list |
| Skiplists.Skiplist.GetNode | libs/utils/skiplist.go:133-145 | finds the row with that key standing where the row would stand, if any, and leaves in `beforeNode` the last node before that place on every layer in use |
| Skiplists.Skiplist.GetNodeByRank | libs/utils/skiplist.go:147-161 | adding up spans ends at the node of that rank: the head at 0, nothing below 0 or past the length |
| Skiplists.Skiplist.GetByRank | libs/utils/skiplist.go:163-169 | the row of each rank from 1 to the length, nothing elsewhere |
| Skiplists.Skiplist.GetRank | libs/utils/skiplist.go:171-184 | spans add up to the position of a row with that key that no tower between it and the key's place hides; 0 if and only if every such row is hidden or absent |
| Skiplists.Skiplist.GetByRankRange | libs/utils/skiplist.go:186-205 | when it succeeds, the slice of the ranking from that rank on, cut at the end; all other entries of the buffer stay |
| Skiplists.Skiplist.DeleteNode | libs/utils/skiplist.go:207-237 | whichever node it is: that one row goes, and the whole invariant holds of what is left, on the layers above its tower too |
| Skiplists.Skiplist.Delete | libs/utils/skiplist.go:239-253 | removes the row with that key at its place and nothing else; refuses, and changes nothing, when another row or none stands there |
| Skiplists.Skiplist.PullList | libs/utils/skiplist.go:269-276 | following the lowest links gives every row once, in order |
| Skiplists.Skiplist.CountsSumToLength | libs/utils/skiplist.go:127-128 | the counts by height add up to the length |
| RankItems.GreaterIsStrictTotalOrder | src/common/rank_item.go:36-74 | the comparison is a strict total order, with `Less` its converse |
| RankItems.GreaterOnFields | src/common/rank_item.go:36-88 | which row stands higher: the higher value, then the earlier update, then the smaller id; keys agree exactly when ids do |
| RankItems.PlayerRankItem.Assign | src/common/rank_item.go:107-115 | a row takes over every field, also from itself |
| RankList.RankCountsAhead | libs/utils/ranklist.go:172-181 | a row's position is the number of rows with a higher value, or an equal one and an earlier update, or those equal and a smaller id |
| RankList.HigherValuesFirst | src/common/rank_item.go:56-74 | down any ranking values never rise, at equal values times never fall, at equal times ids rise |
| RankList.RankingLength | libs/utils/ranklist.go:237-241 | a ranking has one row for each key |
| RankList.RankingIsUnique | libs/utils/ranklist.go:114-131 | a table has one ranking only: no trace of the order of updates or of tower heights is left in what is shown |
| RankList.CommonRankingList.Update | libs/utils/ranklist.go:114-131 | the table gets that key's new value and nothing else changes; the ranking shown is the one of the new table, although the shared row is rewritten in place |
| RankList.CommonRankingList.GetLength | libs/utils/ranklist.go:237-241 | the number of keys, which is the number of rows shown |
| RankList.CommonRankingList.GetRank | libs/utils/ranklist.go:172-181 | 0 for an unknown key, else one more than the number of keys ahead by value, then time, then id; the row shown there is the key's own |
| RankList.CommonRankingList.GetByRank | libs/utils/ranklist.go:37-48 | a fresh copy of the row at each rank from 1 to the length, nothing elsewhere |
| RankList.CommonRankingList.GetByKey | libs/utils/ranklist.go:50-61 | a fresh copy of the key's newest row, nothing for an unknown key |
| RankList.CommonRankingList.GetRangeNodes | libs/utils/ranklist.go:133-170 | the page asked for, cut at the end of the ranking, copied row by row and nothing written behind it; it panics exactly for a negative count at a valid start |
| RankList.CommonRankingList.PageShows | libs/utils/ranklist.go:134-150 | a page holds exactly the ranks asked for that there are, none for a start below 1, past the ranking or past the highest rank served |
| RankList.CommonRankingList.ShownByValue | libs/utils/ranklist.go:114-131 | after any updates what is shown is in falling order of values, ties by time, then id |
| TimerList.ConnTimerList.Add | src/game_server/conn_timer_mgr.go:20-33 | a fresh timer goes last in a well-formed doubly linked list |
| TimerList.ConnTimerList.Remove | src/game_server/conn_timer_mgr.go:35-48 | that timer and no other leaves; its own link still leads to what followed it |
| TimerWheel.ConnTimerWheel.Insert | src/game_server/conn_timer_wheel.go:48-75 | the player has one full interval left, whatever was left before, and nobody else's time changes |
| TimerWheel.ConnTimerWheel.Remove | src/game_server/conn_timer_wheel.go:77-89 | that player's countdown ends; every other entry stays, also those whose list was dropped |
| TimerWheel.ConnTimerWheel.VisitAll | src/game_server/conn_timer_wheel.go:145-154 | the walk meets every timer of the list although it unlinks the one it stands on: all known players in it are logged out, in order, once each |
| TimerWheel.ConnTimerWheel.Sweep | src/game_server/conn_timer_wheel.go:129-163 | a sweep of any number of seconds, longer than the ring too, takes those seconds off every countdown and logs out exactly the known players whose time is over |
| TimerWheel.ConnTimerWheel.Serve | src/game_server/conn_timer_wheel.go:98-121 | the requests waiting act on the countdowns in their order |
| TimerWheel.ConnTimerWheel.Step | src/game_server/conn_timer_wheel.go:98-165 | one round of the ring refines one round of the countdowns: same seconds left for everybody, same players logged out, none twice |
| WheelRuns.Countdown | src/game_server/conn_timer_wheel.go:98-165 | after every round since its start a countdown shows the interval less the seconds swept, or is gone when they reach it |
| WheelRuns.DeadlineExact | src/game_server/conn_timer_wheel.go:98-165 | a player started once is logged out in a round if and only if that round's sweep is the one to reach the interval and the player is known then: never earlier, never later |
| WheelRuns.DeadlineOnClock | src/game_server/conn_timer_wheel.go:123-165 | read off a clock that does not go back: the log-out comes in the first round that reads the start plus the interval or later, the start being the first reading of a new wheel or else the last sweep |
| WheelRuns.ElapsedOnClock | src/game_server/conn_timer_wheel.go:123-129 | on such a clock the seconds gone by are the difference of two readings |
| WheelRuns.FirstRound | src/game_server/conn_timer_wheel.go:124-126 | the first round of a new wheel logs nobody out and takes nothing off any countdown |
| WheelRuns.EndedIsNotLoggedOut | src/game_server/conn_timer_wheel.go:98-165 | a player whose countdown was ended is logged out neither then nor later, unless requested anew |
| WheelRuns.Run | src/game_server/conn_timer_wheel.go:91-176 | any run of rounds on a new ring logs out, round by round, exactly whom the countdowns say, none twice in a round |
| WheelRuns.LoggedOutOnce | src/game_server/conn_timer_wheel.go:98-165 | no run logs a player out twice for one start |
| WheelRuns.LoggedOutByThen | src/game_server/conn_timer_wheel.go:98-165 | once the sweeps add up to the interval, a player known throughout has been logged out |
| BuildingMap.PackCollides | src/game_server/player_building.go:118 | the key is the low 16 bits of x above those of y, so two cells share a key if and only if both coordinates agree in theirs |
| BuildingMap.UnpackOfPack | src/game_server/player_building.go:195-197 | decoding gives signed 16-bit coordinates back, so no two such cells share a key |
| BuildingMap.PackOfUnpack | src/game_server/player_building.go:195-197 | every 32-bit key is the key of what it decodes to |
| BuildingMap.InCells | src/game_server/player_building.go:116-121 | a rectangle's keys are those of its offsets and no others |
| BuildingMap.FootprintIs | src/game_server/player_building.go:227-231 | a building covers the cells of its sides, exchanged when it is turned |
| BuildingMap.FreeForIff | src/game_server/player_building.go:153-171 | a rectangle can be built on if and only if each cell is open, of matching ground and under no other building; the error of a cell is the first of ground, occupancy and openness to fail |
| BuildingMap.SharedKind | src/game_server/player_building.go:155-158 | ground matches when some bit but the sign is set on both sides and the sign is not |
| BuildingMap.ExactIsUnique | src/game_server/a_db_ext.go:462-509 | an exact map can only exist over disjoint footprints, and then every rebuild from the table, in any order, gives that map |
| BuildingMap.PutKeepsExact | src/game_server/player_building.go:114-122 | marking a new building's cells keeps the map exact if and only if none of them was taken |
| BuildingMap.MoveCanBeUndone | src/game_server/player_building.go:307-330 | after a move the old place is free for the building again, and moving back gives the very map there was |
| BuildingMap.TurnedPlacementCanBreak | src/game_server/player_building.go:227-247 | a building 1 wide and 2 high whose turned rectangle is open and free while the unturned one, which gets recorded, is not |
| BuildingMap.TurnedPlacement | src/game_server/player_building.go:217-262 | the same through the operations, from a new player: the placement succeeds and leaves a building on a closed cell |
| BuildingMap.Player.IfPosCanSetBuilding | src/game_server/player_building.go:147-174 | accepts if and only if every cell is open, of matching ground and free but for the building itself; else gives the error of the first bad cell, column by column |
| BuildingMap.Player.TrySetMapBuildingDefDir | src/game_server/player_building.go:176-215 | whatever order the cells are looked at in: it places at an open cell where the building fits, or there is no such cell and nothing changed |
| BuildingMap.Player.SetMapBuilding | src/game_server/player_building.go:217-262 | succeeds if and only if the turned rectangle can be built on, else gives the error of its first bad cell; afterwards map, table and ground agree if and only if the unturned one could be too, which is so when it is not turned or square |
| BuildingMap.Player.RelocateMapBuilding | src/game_server/player_building.go:307-330 | moves and turns if and only if the new rectangle is free but for the building itself, else changes nothing and gives the error of the first bad cell; map, table and ground agree |
| BuildingMap.Player.MoveMapBuilding | src/game_server/player_building.go:265-305 | the same for a building named by its id, with the errors for no building and no configuration |
| BuildingMap.Player.ChgMapBuildingDir | src/game_server/player_building.go:333-368 | turns a building where it stands if and only if the turned rectangle is free but for itself |
| BuildingMap.Player.RemoveAreaBuilding | src/game_server/player_building.go:133-145 | exactly that building's row and cells go, and map, table and ground still agree |
| BuildingMap.Player.GetBackMapBuilding | src/game_server/player_building.go:542-592 | takes the building off the map unless it is missing, not configured or an occupied cat house, in which cases nothing changes |
| BuildingMap.Player.GetAllBuildingPos | src/game_server/a_db_ext.go:462-509 | rebuilt in any order of rows, the map is the one kept up to date |
| BuildingMap.Player.ChkUpdateMyBuildingAreas | src/game_server/player_building.go:88-112 | the first use opens exactly the cells of the areas owned, changes no other, and leaves map, table and ground in agreement if and only if the stored buildings are disjoint and on open, matching ground; later uses change nothing |
| BuildingMap.Player.OpenCells | src/game_server/player_area.go:81-84 | opening an area adds its cells, takes none away, and breaks no building |
| ItemPool.SimpleItemPool.GetFree | libs/utils/simple_item_pool.go:23-33 | takes the next free item off; with none free nothing changes |
| ItemPool.SimpleItemPool.Recycle | libs/utils/simple_item_pool.go:35-46 | the item is the next to be taken again; refused if and only if all are free |
| ItemPool.SimpleItemPool.HasFree | libs/utils/simple_item_pool.go:48-53 | tells whether anything is free |
| ChatQueue.NoneLost | src/game_server/chat.go:149-195 | listed and free nodes together, all different and as many as the pool had, are the pool: no node is lost |
| ChatQueue.ChatMgr.RecycleOld | src/game_server/chat.go:125-147 | what is left is exactly what is not expired, in order, in a well-formed list over the same nodes |
| ChatQueue.ChatMgr.Push | src/game_server/chat.go:149-195 | the messages in date, of a full channel all but the oldest, and the new one last; the list stays well formed if and only if the pool has two nodes or more or nothing was in date, else the node is behind itself |
| ChatQueue.OneNodePool | src/game_server/chat.go:155-192 | two pushes from a new channel of one node end in a node whose next is itself |
| ChatQueue.ShownAreTheNewest | src/game_server/chat.go:149-195 | over any run with a clock that does not go back: what is shown is a tail of everything sent, and a message is in it if and only if it is in date and newer ones do not fill the channel |
| ChatQueue.PushAll | src/game_server/chat.go:149-195 | any run of pushes on a new channel of two nodes or more leaves in the linked list exactly those messages |
| ShortRank.ShortRankList.Update | libs/utils/short_ranklist.go:48-138 | new, rising, falling or equal, replacing or adding: the array becomes the sorted list with that one row placed anew and the index stays its exact inverse; the row passed in comes back with its total |
| ShortRank.ShortRankList.Delete | libs/utils/short_ranklist.go:140-160 | takes that key's row out, closes the gap and keeps the index the exact inverse; refuses an unknown key |
| ShortRank.ShortRankList.Clear | libs/utils/short_ranklist.go:162-172 | an empty ranking again |
| ShortRank.ShortRankList.GetRank | libs/utils/short_ranklist.go:174-185 | the place of the key in the ranking, 0 for an unknown one |
| ShortRank.ShortRankList.GetByRank | libs/utils/short_ranklist.go:187-201 | the row at a rank, nothing past the end |
| ShortRank.ShortRankList.GetIndex | libs/utils/short_ranklist.go:203-215 | the index of the row at a rank, through its key, is that of the array; -1 past the end |
| ShortRank.RankOfRow | libs/utils/short_ranklist.go:174-201 | the rank of the key found at a rank is that rank |
| ShortRank.UpdateMovesOneRow | libs/utils/short_ranklist.go:48-138 | without the key updated, the ranking before and after is the same; with it, the row stands behind all others of at least its value and before all lower ones; refused updates, and only they, change nothing |
| ShortRank.RunIsSortedTable | libs/utils/short_ranklist.go:48-160 | after any run of updates and deletions the ranking is a plain map from keys to values, sorted, each key once |
| Framing.ParseInParts | libs/server_conn/server_conn.go:588-630 | cutting frames off early loses nothing: parsing the front and then going on is parsing the whole |
| Framing.ChunkingDoesNotMatter | libs/server_conn/server_conn.go:557-631 | at every point of a stream, however split into reads the buffer holds, all frames there are have been cut off, if and only if no frame of length 0 in it has another length right behind it |
| Framing.FrameLeftBehind | libs/server_conn/server_conn.go:588-630 | the five bytes 0 0 0 1 7 in one read deliver the empty frame and leave the next one behind |
| Framing.LengthsRefused | libs/socket/socket.go:597-626 | byte by byte, which lengths servers and clients refuse and which they carry over |
| Framing.BytewiseParses | libs/server_conn/server_conn.go:588-630 | one byte at a time every frame of any stream is cut off |
| Framing.ClientFormatIsClean | libs/socket/socket.go:597-654 | client connections refuse the lengths that would make reads stop early |
| Framing.EveryByteAccounted | libs/server_conn/server_conn.go:557-631 | frames delivered, the length carried and the bytes buffered spell every byte read, in order, after any reads |
| Framing.FramesComeThrough | libs/server_conn/server_conn.go:395-411 | what is framed comes out again frame by frame, nothing left over, however it is split |
| Receivers.ServerConn.OnRead | libs/server_conn/server_conn.go:586-630 | one read of the server loop does what `Drain` says |
| Receivers.ServerConn.RecvLoop | libs/server_conn/server_conn.go:557-632 | the server loop delivers over its reads what `Reads` says |
| Receivers.TcpConn.OnRead | libs/socket/socket.go:596-654 | one read of the client loop does what `Drain` says |
| Receivers.TcpConn.RecvLoop | libs/socket/socket.go:564-656 | the client loop delivers, for every split, the frames of the whole stream |
| Messages.Sender.SendData | libs/server_conn/server_conn.go:184-242 | drops exactly the messages too long and those after closing; any other goes last of all queued, and with no group held goes out in a group of its own |
| Messages.Sender.SendFlush | libs/server_conn/server_conn.go:244-263 | nothing is held any more, and the order of what is queued stays |
| Messages.WriteMsgs | libs/server_conn/server_conn.go:297-328 | id, length and body of each message, one message behind the other; refuses an empty group |
| Messages.SendLoop | libs/server_conn/server_conn.go:346-411 | one frame for a group, compressed above 2048 bytes, with the length that is written truncated to 16 bits |
| Messages.OnRecv | libs/server_conn/server_conn.go:423-542 | hands out what `Unpacked` says and ends as it does, which the next two rows pin for every frame |
| Messages.TakenIffWelcome | libs/server_conn/server_conn.go:423-542 | a frame is handed out whole, without complaint, if and only if it carries, inflated where its first byte says so, the writing of just those messages and each has a handler, can be parsed and fits |
| Messages.RefusedBehindRun | libs/server_conn/server_conn.go:467-539 | of any other frame exactly the longest run of welcome messages at its front is handed out; it ends in the panic if and only if a message past 65535 bytes comes next, and as malformed otherwise |
| Messages.DispatchedOfWritten | libs/server_conn/server_conn.go:467-539 | splitting what was written for a group gives its messages back, ids and bodies, in order |
| Messages.OnlyShortBodiesComeThrough | libs/server_conn/server_conn.go:604-607 | a frame comes through if and only if its body has at most 8192 bytes |
| Messages.MessagesComeThrough | libs/server_conn/server_conn.go:346-411 | groups that pass, framed one after the other and split in any way, are handled as exactly their messages, in order |
| Messages.SendAll | libs/server_conn/server_conn.go:184-242 | any run of sends on a new connection queues each message not too long alone, in order, urgent or not |
| Messages.SendsComeThrough | libs/server_conn/server_conn.go:184-242 | from send to handler: messages welcome and small enough not to be compressed are handed out with their ids and bodies, all of them, in order, for every split of the stream |
| Messages.ClientSend | libs/socket/socket.go:389-411 | the client's header and body for a message |
| Messages.ClientOnRecv | libs/socket/socket.go:449-538 | hands out what `ClientUnpacked` says, which the next row pins for every frame |
| Messages.ClientTakenIff | libs/socket/socket.go:449-538 | a client's message is handed out if and only if its frame names it, low byte first, carries its body, inflated where the first byte says so, and there is a handler that can parse it; otherwise the frame is malformed |
| Messages.OnlyShortClientMessagesComeThrough | libs/socket/socket.go:623-626 | a client's message comes through if and only if its body and two bytes are at most 8192 |
| Messages.ClientMessagesComeThrough | libs/socket/socket.go:387-411 | clients' messages are handed out with their ids and bodies, in order, for every split |
| MakingQueue.DoneIffElapsed | src/game_server/player_formula.go:59-102 | the loop that uses elapsed time up ends a building exactly when the times up to its own fit in |
| MakingQueue.PollsDoNotMatter | src/game_server/player_formula.go:59-137 | polling at one time and again later leaves slots, queue, start times and finished buildings exactly as polling once, later |
| Workshop.EachSlotOnce | src/game_server/player_formula.go:36-137 | the answer, written from both ends, has one row for each slot and for nothing else |
| Workshop.FreeRowsAreEmpty | src/game_server/player_formula.go:36-57 | rows behind those of the queue name a free or finished slot and show nothing being made |
| Workshop.AnswerIsWhole | src/game_server/player_formula.go:59-137 | rows of waiting buildings in front and of finished ones and free slots behind meet exactly: no row is left blank or written twice |
| WorkshopRuns.RowTells | src/game_server/player_formula.go:107-130 | a waiting row names its slot and formula; its seconds are those until the building is over if and only if it is in front or those before it take 59 times its own time |
| Workshop.SoundPolled | src/game_server/player_formula.go:59-137 | polling keeps the queue free of repeats and equal to the slots in use |
| Workshop.SoundMade | src/game_server/player_formula.go:298-321 | an order takes a free slot that is not in the queue and keeps the queue sound |
| Workshop.SoundCancelled | src/game_server/player_formula.go:483-518 | cancelling keeps the queue sound |
| Workshop.SoundSped | src/game_server/player_formula.go:399-412 | speeding up keeps the queue sound |
| WorkshopRuns.BooksBalance | src/game_server/player_formula.go:23-562 | over any run of polls, orders, speed-ups, cancellations, purchases and collections, every building ordered is in the queue, made, handed over or cancelled, each once, and no other is |
| WorkshopRuns.PollingKeepsOwed | src/game_server/player_formula.go:59-137 | polling moves buildings from the queue to those made and loses none |
| WorkshopRuns.OrderAddsOne | src/game_server/player_formula.go:298-321 | an order adds its building and starts its slot's clock |
| WorkshopRuns.SpeedingKeepsOwed | src/game_server/player_formula.go:399-412 | the building ended early is added to those made |
| WorkshopRuns.SpedIsMadeByThen | src/game_server/player_formula.go:399-412 | a speed-up hands over what a poll at the end of the front building would, in the same order |
| WorkshopRuns.CancelTakesOne | src/game_server/player_formula.go:483-518 | a cancelled order takes exactly its own building with it |
| WorkshopRuns.CancelMovesUp | src/game_server/player_formula.go:483-518 | those behind a cancelled building are over earlier by its time, those before it when they were |
| WorkshopRuns.OrderedThenSped | src/game_server/player_formula.go:298-412 | a building ordered behind another that is ended at once is over when its time has passed since the order |
| Workshop.OpensTwoSlots | src/game_server/player_formula.go:23-34 | a workshop without slots gets slots 1 and 2, free; any other stays as it is |
| Workshop.MadeIsOver | src/game_server/player_formula.go:298-321 | a building ordered is over exactly when the times of all queued and its own have passed since the start of the queue |
| Workshop.MadeMayBeEarly | src/game_server/player_formula.go:224-321 | some poll from the order on finds it over before its own time has passed, if and only if it takes time, something was queued and all of that was over before the order |
| Workshop.MadeAndOver | src/game_server/player_formula.go:224-321 | ten seconds ordered at 0 and ten more ordered at 100 with no poll between: both are over at 100 |
| Workshop.SpedStartsFromOrder | src/game_server/player_formula.go:399-412 | after a speed-up the next building is over exactly when its time has passed since it was ordered, not since the speed-up |
| Workshop.Player.GetFormulaBuildings | src/game_server/player_formula.go:23-149 | settles the queue and answers with what is left: rows for waiting buildings in queue order, the others behind |
| Workshop.Player.MakeFormulaBuilding | src/game_server/player_formula.go:224-345 | orders if and only if there are actions, a free slot, the formula and the means; each refusal has its own error and changes nothing |
| Workshop.Player.BuyNewMakingBuildingSlot | src/game_server/player_formula.go:348-387 | the third slot, then the fourth, then no more; nothing changes without the diamonds |
| Workshop.Player.SpeedupMakingBuilding | src/game_server/player_formula.go:390-443 | settles, ends the building in front and takes one diamond for each started unit of the seconds it still had; with nothing in the queue it panics |
| Workshop.Player.CancelMakingFormulaBuilding | src/game_server/player_formula.go:475-562 | settles and drops a waiting building, never the one in front; refusals still settle and change nothing else |
| Workshop.Player.GetCompletedFormulaBuilding | src/game_server/player_formula.go:446-472 | hands over everything finished so far, once |
| MonthCard.ConfigTimeIsPoint | libs/utils/time_func.go:207-220 | the case split around the day's sending time counts the sending times between two moments, which makes it additive |
| MonthCard.ConfigTimeIsToday | libs/utils/time_func.go:35-36 | the sending time of a day lies on that local date and shows the time set |
| MonthCard.PointsCountSendings | libs/utils/time_func.go:207-220 | the days counted between two moments are the moments between at which the local clock shows the sending time |
| MonthCard.GetDaysNumToLastSaveTime | libs/utils/time_func.go:194-223 | the number of moments since the last award at which the local clock showed the sending time, one for a card never awarded, -1 for a time ahead or one that cannot be read |
| MonthCard.Player.ChargeHasMonthCard | src/game_server/player_charge.go:144-160 | tells whether a card the player has is still to be sent mails |
| MonthCard.Player.AwardCard | src/game_server/player_charge.go:121-138 | sends one mail for each sending time passed, never past thirty, and counts exactly those |
| MonthCard.AwardsNeverMore | src/game_server/player_charge.go:121-138 | a card is left as it is when its days cannot be told or thirty mails are sent, loses none, and never gets more than thirty |
| MonthCard.Player.ChargeMonthCardAward | src/game_server/player_charge.go:116-142 | every card listed is settled once, no matter how often it is listed, and no other, with as many mails as that comes to; nothing happens when none is running |
| MonthCard.ScheduleDoesNotMatter | src/game_server/player_charge.go:116-142 | from any card, settled at whatever times: the mails sent are those due by the last settlement, thirty at most |
| Levels.ClimbConserves | src/game_server/player_item.go:878-890 | old experience is what the levels climbed cost and what is left; every level reached was paid for, and what is left does not pay for another |
| Levels.GainConserves | src/game_server/player_item.go:866-907 | a gain leads to the last level that old and new experience pay the way to, and leaves the rest; a negative one, or one at the top, changes nothing |
| Levels.GainsAdd | src/game_server/player_item.go:866-907 | two gains lead to the level of their sum; to its experience too, if and only if the top was not reached by the first, or was held from the start, or the second is nothing |
| Levels.PlayerLevel.AddExp | src/game_server/player_item.go:866-907 | stores the level and experience of the gain; at the top it answers with a sum it does not store |
| Levels.FeedingConserves | src/game_server/player_cat.go:146-180 | old and added experience are what the levels climbed cost and what is left, but for the reset at the top and the clamp at the star limit; every level reached was within the limits and paid for, the climb goes on until stuck, and what is left is below the next cost |
| Levels.FeedingKeepsStar | src/game_server/player_cat.go:143-167 | the limit is that of the cat's star: no level past it is gained, and below it the climb stops only for want of experience |
| Levels.FeedingsAdd | src/game_server/player_cat.go:146-180 | feeding twice is feeding the sum once, resets and clamps included |
| Levels.CatOwner.FeedCat | src/game_server/player_cat.go:120-218 | food is taken if and only if the cat changes; each refusal has its own answer and changes nothing |
| Levels.CatOwner.CatLevelUp | src/game_server/player_cat.go:61-74 | a level is paid for if and only if it has a cost and the experience reaches it |
| IpTable.FindIndexOffset | libs/ipmop/ip17mon.go:105-120 | the first row of the range that reaches the address, or its last |
| IpTable.RowOf | libs/ipmop/ip17mon.go:94-120 | the two-level search finds what a scan of the whole table from the top finds: the first row whose bound reaches the address |

## Findings

Where the code does not do what it is for, a member names an input and another the exact condition.

* **Turned placement** (src/game_server/player_building.go:227-247). `SetMapBuilding` checks the rectangle as turned
  but records and marks it unturned. Input (`BuildingMap.TurnedPlacement`): a building 1 wide and 2 high, turned, at
  (0, 0) on an empty map where (0, 0) and (1, 0) are open and (0, 1) is not. It ends up over the closed cell. The map
  and the table stay in agreement if and only if the unturned rectangle could have been built on as well
  (`BuildingMap.Player.SetMapBuilding`), which unlocking an area with a turned default building does not ensure.
* **A chat pool of one node** (src/game_server/chat.go:155-192). The recycled head is still the tail, so it is linked
  behind itself, and readers never reach an end. Input: two messages in date on a channel configured for one
  (`ChatQueue.OneNodePool`). It goes well if and only if the channel has two nodes or nothing was in date
  (`ChatQueue.ChatMgr.Push`).
* **Zero-length frames** (libs/server_conn/server_conn.go:588-630). A length 0 ends the round after the next length is
  read or not, depending on the split. Input: the bytes 0 0 0 1 7 in one read (`Framing.FrameLeftBehind`). Splits agree
  if and only if no length 0 has another length right behind it (`Framing.ChunkingDoesNotMatter`).
* **Frames too long** (libs/server_conn/server_conn.go:377-380, 395-399). The length is cut to 16 bits without a check.
  A body comes through if and only if it has at most 8192 bytes (`Messages.OnlyShortBodiesComeThrough`,
  `Messages.OnlyShortClientMessagesComeThrough`); a compressed body may exceed that.
* **An order that finishes early** (src/game_server/player_formula.go:224-321). The queue is not settled before an
  order, so time that passed idle counts for the new building. Input: `Workshop.MadeAndOver`; condition:
  `Workshop.MadeMayBeEarly`.
* **The start kept after a speed-up** (src/game_server/player_formula.go:399-411). The next building keeps the start it
  got when it was ordered, so the poll right after a speed-up may find it over (`Workshop.SpedStartsFromOrder`, if and
  only if its time has passed since the order; `WorkshopRuns.OrderedThenSped` for one ordered just before).
* **A speed-up with an empty queue** (src/game_server/player_formula.go:430). The answer takes the first entry of an
  empty list. It panics if and only if nothing is left in the queue after settling
  (`Workshop.Player.SpeedupMakingBuilding`).
* **Waiting rows in other units** (src/game_server/player_formula.go:111-130). The row of a waiting building shows sixty
  times its time, while settling counts that time in seconds (`WorkshopRuns.RowTells`, with when it is right all the
  same).
* **Experience gained at the top level** (src/game_server/player_item.go:879-906). It is reported and not stored, so two
  gains may end with less than their sum; `Levels.GainsAdd` gives the exact condition.
* **Rows hidden from `Skiplist.GetRank`** (libs/utils/skiplist.go:178-181). It looks only at the first tower of each
  layer at or behind the place of the row asked for, so another row with its key can be missed when a tower at least as
  high stands between (`Skiplists.Skiplist.GetRank`). Rows on file are never hidden
  (`RankList.CommonRankingList.GetRank`).
* **A negative page size** (libs/utils/ranklist.go:152). Making the page panics, exactly when the start is
  valid and the count negative (`RankList.CommonRankingList.GetRangeNodes`).
* **Cells apart by 65536** (src/game_server/player_building.go:118). They share a key (`BuildingMap.PackCollides`).
* **Players the server does not know** (src/game_server/conn_timer_wheel.go:145-154). Their countdown ends without a
  log-out and their entry stays behind with a list no longer in the ring; `TimerWheel.ConnTimerWheel.Remaining` counts
  them as gone, and starting or removing such a player still works (`TimerWheel.ConnTimerWheel.Insert`,
  `TimerWheel.ConnTimerWheel.Remove`).

## Left out

- `Skiplist.DeleteByRank` (libs/utils/skiplist.go:255-267): it uses `before_node` without setting it, so it has no
  state it can safely be called in.
- `CommonRankingList.Delete` and `SetValueByKey` (libs/utils/ranklist.go:63-72, 110-112): the first leaves the key on
  file, the second changes a listed row's place in the order; the ranking results are about updates.
- `PlayerCatOuqiRankItem` (src/common/rank_item.go:219-267): its last comparison is not by its key, so it is no total
  order. The 64-bit row (lines 127-206) differs from the 32-bit one in width only.
- `ShortRankList.GetByRank` and `GetIndex` below rank 1: they index the array out of range and panic.
- Integer widths: 32-bit counters are unbounded here, except where widths are the point (cell keys, length fields,
  the 16-bit end of a message body).
- Locks, goroutines, `sync.Pool` reuse of rows: operations are taken one at a time and rows from the pool are fresh.
- Tower heights, clocks, known players, the order of map iteration: parameters, or any order at all.
- A node's layers are a sequence of values in the node; the links between nodes are references as in the code.
- `ConnTimerPlayer` (src/game_server/conn_timer_mgr.go:50-54) is a value in the map of players.
- What log-out does besides ending the countdown (`OnLogout`), `ConnTimerMgr.Run`, and the wheel of
  libs/utils that nothing here uses.
- Chat: reader cursors and pulls, cooldowns, and unlinking from the middle, which a clock that does not go back rules
  out.
- Buildings: depot, chests, blocks counted per area (`cur_areablocknum_map` is the set of full areas), requirements
  and costs of unlocking an area, clients' notifications. Configuration tables are constants.
- RemoveAreaBuilding: it is stated for the rectangle the building stands on, which is what its callers pass.
- Framing: DEFLATE (RFC 1951) is any pair of functions, required to undo each other only on the groups claimed to come
  through; a message's body parses if a predicate says so; deadlines, disconnects and closing races are not modelled.
- The buffers of the receive loops are sequences of bytes.
- `Serve` recurses over the requests waiting, where the code polls a channel.
- Workshop: formulas missing from the table, whose queue entries the code skips, are outside `Sound`; costs and
  materials are a refusal code passed in; tasks and notifications are not modelled.
- Month cards: the contents of the mails and the bonus by VIP level; days have 86400 seconds, so no daylight saving.
- Cats: criticals, prices of food, notices and rankings fed by a level change.
- `IpTable`: loading the table and reading the text of the row found.
- libs/net_conn and libs/socket_cli, which repeat the framing, and all handlers, storage and remote calls.
