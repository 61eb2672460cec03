# Squabble game server — a verified model of its core

Squabble is a multiplayer word game served over sockets. Players join a
game's lobby, flag themselves ready, and once two are ready the game starts
with a countdown. During the game they place letters on a shared board and
submit words. When the countdown runs out the participants are ranked, and the
result is reported to the chain.

This project models the server's core in Dafny and proves properties of it:

- `Letters` (`src/lib/words.ts`): the letter value table, word scoring, the
  dictionary, and the random draws of words, letters and racks.
- `WordGrid` (`src/lib/words.ts`): reading words off the board.
  - `findWordsAtPosition` finds the words through one cell.
  - `validateAllWords` collects the words through every cell of a path.
  - `getPathDirection` finds the direction of a path.
  - `getMainWord` and `getPerpendicularWord` read single words.
  - `getNewWordsFormed` finds the words a move forms.
  The loops are imperative methods, each proved equal to a function. Those
  functions are then proved to find maximal runs of filled cells.
- `RoomManager` (`src/game-room-manager.ts`): the in-memory room registry.
  It is a class whose fields are the rooms, the running intervals, the next
  interval handle, and the log of database requests made.
- `StartGame` (`src/handlers/StartGameHandler.ts`): covers:
  - the start gate
  - the handler's own 60-second countdown
  - ranking and settlement when the countdown expires
  - the racks dealt at the start
- `Lobby` (`src/handlers/ConnectToLobby.ts`): the join with its guards and
  the capacity of six.
- `RosterScan`, `PlayerLeave` and `DisconnectHandler`
  (`src/handlers/PlayerLeaveHandler.ts`, `src/handlers/DisconnectPlayer.ts`):
  scans over all rooms that remove a player through `removePlayer`.
- `SubmitWord` and `RefreshLetters` (`src/handlers/SubmitWordHandler.ts`,
  `src/handlers/RefreshAvailableLetters.ts`).
- `LegacyServer` (`src/index.ts`): the older self-contained server. It has
  its own room map, 15×15 boards, and handlers for letters, words and
  disconnects.

How the model represents the system:

- **Timers are explicit.** The registry and the legacy server each keep a map
  from interval handle to the room that interval ticks. Starting an interval
  allocates the next handle. A tick is a method call on a handle.
- **The key invariant.** Each running interval is the one its room stores.
  So a room never has more than one running interval. Every operation states
  whether it keeps this invariant.
- **Database and chain calls are recorded, not performed.** They are appended
  to `effects` in the order the source makes them.
- **Values from outside are parameters.** This covers the stored game
  record, the participants read at settlement, and whether a record call
  succeeds.
- **Strings are sequences of Unicode code points.** JavaScript's `length`
  counts UTF-16 code units, so a character outside the Basic Multilingual
  Plane counts two. `Common.Utf16Length` computes that length, and the model
  uses it wherever the source tests or scores a word's length.
- **Random choices are nondeterministic.** A contract holds for every
  choice.

Some legacy-server behaviour is modelled exactly as written:

- `player_ready`, `player_stake_confirmed` and `submit_word` look a player up
  by socket id. But `connect_to_lobby` stores players under their fid. So
  these handlers only find a player whose fid equals its socket id.

Where the system's documented design and the code disagree, the model
follows the code:

- A submitted word scores its JavaScript length (`calculateWordScore`), not the sum of
  its letter values. `computeWordScore` is modelled separately.
- The checks and commit of a whole placement are not present in this code.
  The word-finding functions are what it has, and they are what is modelled.
- Joining a free game does not mark the player ready.
- Creating a room cannot fail, and a new room has no contract game id.
- Only a PLAYING record blocks the start; a FINISHED one does not.
- The start handler starts a new interval without stopping one the room
  already runs.
- A roster that becomes empty always ends the game through `endGame`. This
  records the game as FINISHED whatever its status.
- When the start handler's countdown expires, the room stays registered.
- There is no durable cache tier in this code.

## Model

| member | source | states |
|---|---|---|
| `Letters.LetterTableCoversAlphabet` | src/lib/words.ts:4-31 | exactly the 26 lower-case letters have a value, and each value is one of 1, 2, 3, 4, 5, 8, 10 |
| `Common.Utf16Length` | src/lib/words.ts:36 | JavaScript's `length`: at least one and at most two code units per character |
| `Common.Utf16LengthAppend` | src/lib/words.ts:36 | the length of a concatenation is the sum of the lengths |
| `Common.Utf16LengthOfBmp` | src/lib/words.ts:36 | the length counts characters exactly when every character lies in the Basic Multilingual Plane |
| `Letters.LetterValueBounds` | src/lib/words.ts:4-31 | a character's value, looked up lower-cased, is between 1 and 10 points |
| `Letters.Lower` | src/lib/words.ts:94 | lower-casing keeps the length and maps each upper-case ASCII letter to its lower-case letter, leaving other characters alone |
| `Letters.LowerIdempotent` | src/lib/words.ts:94 | lower-casing twice is lower-casing once |
| `Letters.WordScoreDefined` | src/lib/words.ts:97-101 | the score of a word is a number exactly when every character has a value (otherwise the sum is NaN) |
| `Letters.WordScore` | src/lib/words.ts:97-101 | computeWordScore: a score that is a number lies between one and ten points per character |
| `Letters.WordScoreAppend` | src/lib/words.ts:97-101 | the score of two words written one after the other is the sum of their scores, NaN absorbing |
| `Letters.WordScoreIgnoresCase` | src/lib/words.ts:97-101 | a word and its lower-cased form have the same score |
| `Letters.Utf16LengthLower` | src/lib/words.ts:94 | lower-casing keeps a word's JavaScript length |
| `Letters.LoadWords` | src/lib/words.ts:33-36 | the dictionary holds exactly the lines whose JavaScript length is at most ten |
| `Letters.IsWordValid` | src/lib/words.ts:93-95 | isWordValid: a valid word is a dictionary entry once lower-cased, so its JavaScript length is at most ten |
| `Letters.WordValidityProperties` | src/lib/words.ts:93-95 | validity does not depend on case |
| `Letters.RandomWord` | src/lib/words.ts:38-48 | the word is a dictionary entry whose JavaScript length is in the range whenever one exists, and "" when none does |
| `Letters.RandomLetter` | src/lib/words.ts:50-78 | the tile is a letter of the table with that letter's value |
| `Letters.RandomAvailableLetters` | src/lib/words.ts:80-91 | the rack has `amount` tiles, each a table letter not among the skipped ones, with its value |
| `WordGrid.RunStartBefore` | src/lib/words.ts:216-217 | the backward scan stops at the start of the board or just after an empty cell, and every cell it passed is filled |
| `WordGrid.RunEnd` | src/lib/words.ts:128-132 | the forward scan stops at the board's end or at an empty cell, and every cell it passed is filled |
| `WordGrid.ScannedRun` | src/lib/words.ts:118-139 | the scanned run lies on the board, and when it is not empty it is a maximal run of filled cells |
| `WordGrid.MaximalRunUnique` | src/lib/words.ts:109-165 | two maximal runs on the same line that share a cell are the same run |
| `WordGrid.ScanBack` | src/lib/words.ts:217 | the loop that steps back while the previous cell is filled stops at the start of the run before the cell |
| `WordGrid.BackUp` | src/lib/words.ts:123-126 | the backward loop followed by the step forward gives the start of the run through the cell |
| `WordGrid.ReadRun` | src/lib/words.ts:128-132 | the forward loop ends at the run's end, and it collects the run's positions and the concatenation of its cells |
| `WordGrid.FindWordAlong` | src/lib/words.ts:118-139 | one direction of findWordsAtPosition yields the run through the cell when its word's JavaScript length is more than 1, otherwise nothing |
| `WordGrid.FindWordsAtPosition` | src/lib/words.ts:109-165 | the method returns exactly the words of the specification function `WordsAt` |
| `WordGrid.FoundDescribes` | src/lib/words.ts:133-138 | each word found has a JavaScript length above 1, is spelled by filled cells of one row or column, and new iff it touches the move |
| `WordGrid.WordsAtShape` | src/lib/words.ts:109-165 | at most two words, the horizontal one first; each is spelled by filled cells of the cell's row or column, and is new iff it touches the move |
| `WordGrid.RunAtMaximal` | src/lib/words.ts:118-162 | on a filled cell the run read in either direction is the maximal run through that cell |
| `WordGrid.MaximalRunFound` | src/lib/words.ts:109-165 | on a filled cell, the maximal run through it in a direction is among the words found iff its word's JavaScript length is more than 1 |
| `WordGrid.WordsAtMaximal` | src/lib/words.ts:109-165 | on a filled cell, every word found contains the cell and is the word of a maximal run |
| `WordGrid.WordsAtEmptyCell` | src/lib/words.ts:118-162 | on an empty cell, any word found starts one cell past it and never contains it |
| `WordGrid.OneCellWords` | src/lib/words.ts:109-165 | on a one-cell board whose cell has JavaScript length above 1, that cell is found as a word in both directions |
| `WordGrid.OneCellAstralWord` | src/lib/words.ts:133-138 | a single cell holding a character outside the Basic Multilingual Plane is a word, as its JavaScript length is 2 |
| `WordGrid.InvalidWords` | src/lib/words.ts:186-190 | the invalid words are exactly the collected words the dictionary rejects |
| `WordGrid.ValidateAllWords` | src/lib/words.ts:167-191 | the words are those found at each distinct path position in path order, and the move is valid iff every word is in the dictionary |
| `WordGrid.CollectPathWords` | src/lib/words.ts:171-183 | the loop over the path collects, for each position not visited before and in path order, the words found there |
| `WordGrid.NoInvalidWords` | src/lib/words.ts:186-189 | no word is filtered out as invalid exactly when every collected word is in the dictionary |
| `WordGrid.ValidateCoversPath` | src/lib/words.ts:172-183 | every path position is visited once, and the collected words are exactly the words found at the path's positions |
| `WordGrid.GetPathDirection` | src/lib/words.ts:194-203 | horizontal iff the path has two positions and one row; vertical iff it has two positions and one column but not one row; none otherwise |
| `WordGrid.MinAlong` | src/lib/words.ts:216 | the smallest coordinate of the path along the direction |
| `WordGrid.MainRun` | src/lib/words.ts:213-223 | the main word's run lies on the board in the path's direction |
| `WordGrid.PerpRun` | src/lib/words.ts:246-267 | the perpendicular run lies on the board across the path's direction |
| `WordGrid.GetMainWord` | src/lib/words.ts:206-237 | the loops of getMainWord compute the specification function `MainWord`: "" without a direction, else the word of the run through the path's smallest coordinate |
| `WordGrid.GetPerpendicularWord` | src/lib/words.ts:240-269 | the loops compute the word across the direction, or none when its JavaScript length is 1 or less |
| `WordGrid.GetMainWordPositions` | src/lib/words.ts:291-313 | the positions are exactly those of the main word's run |
| `WordGrid.GetPerpendicularPositions` | src/lib/words.ts:328-347 | the positions are exactly those of the perpendicular run |
| `WordGrid.MainWordEntry` | src/lib/words.ts:316-321 | the main word enters the set iff its JavaScript length is more than 1 and it uses a placed tile |
| `WordGrid.AddPerpendicularEntry` | src/lib/words.ts:324-352 | one placed tile adds its perpendicular word, once, iff that word's JavaScript length is more than 1 and it uses a placed tile |
| `WordGrid.GetNewWordsFormed` | src/lib/words.ts:272-354 | the method returns the specification function `NewWordsFormed` |
| `WordGrid.PerpCandidatesFormed` | src/lib/words.ts:324-352 | each perpendicular word added has a JavaScript length above 1 and is the word of a maximal run that holds a placed tile |
| `WordGrid.NewWordsFormedProperties` | src/lib/words.ts:272-354 | no words without a direction; no word twice; each word has a JavaScript length above 1 and is the word of a maximal run that holds a placed tile |
| `RoomManager.EmptyBoard` | src/game-room-manager.ts:24-26 | an n×n board of empty cells |
| `RoomManager.SumScores` | src/game-room-manager.ts:116-119 | the total funds are the sum of the players' scores |
| `RoomManager.TotalScoreRemove` | src/game-room-manager.ts:116-119 | the sum of scores is one player's score plus the sum over the others |
| `RoomManager.AtMostOneIntervalPerRoom` | src/game-room-manager.ts:134-139 | when each interval is the one its room stores, two running intervals of one room are the same |
| `RoomManager.EvictRegistered` | src/game-room-manager.ts:105-125 | evicting a room and its intervals keeps the registry's bookkeeping and at most one interval per room |
| `RoomManager.RestartRegistered` | src/game-room-manager.ts:127-149 | stopping the stored interval and storing a new one keeps the bookkeeping, and the new one is then the room's only interval |
| `RoomManager.RosterRegistered` | src/game-room-manager.ts:54-64 | replacing a roster by one keyed by fid keeps the bookkeeping |
| `RoomManager.WithoutSocket` | src/game-room-manager.ts:178-182 | the roster keeps exactly the players whose socket id differs, unchanged |
| `RoomManager.GameRoomManager.constructor` | src/game-room-manager.ts:10-12 | the registry starts with no rooms, no intervals and no requests |
| `RoomManager.GameRoomManager.CreateGameRoom` | src/game-room-manager.ts:21-33 | stores under the id a room with no players, a 10×10 empty board, no timer and 300 seconds, replacing any earlier room |
| `RoomManager.GameRoomManager.GetGameRoom` | src/game-room-manager.ts:35-37 | reference definition: the room stored under the id, or none when there is none |
| `RoomManager.GameRoomManager.AddPlayer` | src/game-room-manager.ts:39-52 | in an existing room the player is stored under its fid and a participant record is requested; nothing happens for an unknown room |
| `RoomManager.GameRoomManager.RemovePlayer` | src/game-room-manager.ts:54-64 | the entry under the fid is deleted, and a roster left empty ends the game: its intervals stop, it is evicted, and FINISHED is recorded with total 0 |
| `RoomManager.GameRoomManager.UpdatePlayerReady` | src/game-room-manager.ts:66-78 | the player's ready flag takes the given value and a paid record is requested; nothing happens for an unknown room or player |
| `RoomManager.GameRoomManager.UpdatePlayerBoard` | src/game-room-manager.ts:80-89 | only that player's board changes |
| `RoomManager.GameRoomManager.UpdatePlayerScore` | src/game-room-manager.ts:91-103 | only that player's score changes, to the given value |
| `RoomManager.GameRoomManager.EndGame` | src/game-room-manager.ts:105-125 | the room's intervals stop, FINISHED is recorded with the sum of scores as total funds, and the room is evicted |
| `RoomManager.GameRoomManager.StartGameTimer` | src/game-room-manager.ts:127-149 | the stored interval is stopped and a new one started and stored; afterwards it is the room's only running interval |
| `RoomManager.GameRoomManager.ManagerTick` | src/game-room-manager.ts:139-147 | a tick decrements the countdown; the game ends iff the countdown reaches zero or below, and the ending interval stops itself |
| `RoomManager.GameRoomManager.UpdateBoard` | src/game-room-manager.ts:151-161 | exactly the cell `board[x][y]` takes the letter, and the board keeps its shape |
| `RoomManager.GameRoomManager.GetActiveGames` | src/game-room-manager.ts:163-165 | every stored game id, each once |
| `RoomManager.GameRoomManager.GetGamePlayers` | src/game-room-manager.ts:167-170 | the room's players, one per entry, or none for an unknown room |
| `RoomManager.GameRoomManager.DisconnectPlayer` | src/game-room-manager.ts:172-184 | every player on the socket is removed, one removal at a time; the removal that empties the roster ends the game |
| `StartGame.ReadyPlayers` | src/handlers/StartGameHandler.ts:27-28 | reference definition: exactly the players flagged ready |
| `StartGame.StartGate` | src/handlers/StartGameHandler.ts:22-47 | the game starts iff the room exists, at least two players are ready, the record is not PLAYING and the room has a contract game id; the first failing guard is reported |
| `StartGame.Handle` | src/handlers/StartGameHandler.ts:19-138 | a refused start changes nothing. A start requests the chain start and PLAYING, sets 60 seconds, starts a new interval and deals racks. One interval per room is kept iff the room ran none before |
| `StartGame.DealRacks` | src/handlers/StartGameHandler.ts:130-133 | every player of the roster, once each, with everything kept but a fresh rack of seven drawn letters |
| `StartGame.StartedTimers` | src/handlers/StartGameHandler.ts:53-55 | storing a new interval keeps the bookkeeping, and keeps one interval per room iff the stored one was not running |
| `StartGame.StartTick` | src/handlers/StartGameHandler.ts:55-122 | every tick decrements the countdown and broadcasts the new count, the last tick included; the tick goes on while the count is positive, and at zero or below the game is settled |
| `StartGame.Cleared` | src/handlers/StartGameHandler.ts:63 | clearInterval stops exactly the given interval |
| `StartGame.Settle` | src/handlers/StartGameHandler.ts:63-120 | the stored interval stops. Without participants, or without a contract game id, nothing else happens. Otherwise the draw flag, the winners' addresses and the first winner are recorded, and the handle is forgotten |
| `StartGame.Conclude` | src/handlers/StartGameHandler.ts:63-120 | the end of the countdown stops the stored interval, leaves no interval of the room running and records the requests made |
| `StartGame.Addresses` | src/handlers/StartGameHandler.ts:83 | the winners' wallet addresses, in order |
| `StartGame.MaxPoints` | src/handlers/StartGameHandler.ts:76 | the highest number of points, reached by some participant |
| `StartGame.Filter` | src/handlers/StartGameHandler.ts:77 | exactly the participants with the given points, in their order |
| `StartGame.Winners` | src/handlers/StartGameHandler.ts:76-78 | never empty; exactly the participants whose points no one exceeds |
| `StartGame.SortByPointsDesc` | src/handlers/StartGameHandler.ts:70 | the participants sorted by points, highest first, as a permutation |
| `StartGame.InsertSorted` | src/handlers/StartGameHandler.ts:70 | inserting into a sorted list keeps it sorted and adds exactly that participant |
| `StartGame.SortKeepsTies` | src/handlers/StartGameHandler.ts:70 | the sort is stable: the participants with equal points keep their order |
| `StartGame.RankingFromSort` | src/handlers/StartGameHandler.ts:69-78 | the first of the sorted list has the top score, and filtering the sorted list by it gives the winners in store order |
| `Lobby.StatusGate` | src/handlers/ConnectToLobby.ts:26-43 | a missing, FINISHED or PLAYING game is refused with its own outcome; only a pending game goes on |
| `Lobby.Paid` | src/handlers/ConnectToLobby.ts:87 | reference definition: the join is paid iff the bet amount is positive |
| `Lobby.AdmittedWithinCapacity` | src/handlers/ConnectToLobby.ts:69-75 | a join the capacity guard admits never takes a room past six players, and a member rejoining does not grow the roster |
| `Lobby.JoinedRoom` | src/handlers/ConnectToLobby.ts:81-88 | the player is stored under its fid with the connecting socket, the other players are kept, and the room is bound to the game's contract game id |
| `Lobby.AddPlayerWithStake` | src/handlers/ConnectToLobby.ts:83-88 | the roster is written first; the participant with its stake flag is recorded only when the call succeeds |
| `Lobby.RoomFor` | src/handlers/ConnectToLobby.ts:46-67 | the registered room, created first when there is none |
| `Lobby.Connect` | src/handlers/ConnectToLobby.ts:8-104 | the status guards, then room creation, then capacity: a full room refuses a newcomer without change; otherwise the player joins and the outcome says whether it was recorded |
| `RosterScan.AfterRemovals` | src/game-room-manager.ts:54-64 | after one removal per touched room, a room is kept unless it was left empty, and a touched room loses exactly the removed fid |
| `RosterScan.ScanStep` | src/game-room-manager.ts:54-64 | removePlayer on an untouched room advances the scan. Rooms are the removals so far, intervals are those of surviving rooms, and one FINISHED record is made per evicted room |
| `PlayerLeave.LeaveTargets` | src/handlers/PlayerLeaveHandler.ts:16-48 | exactly the rooms in scope that hold the player lose it; an absent or empty game id puts every room in scope |
| `PlayerLeave.FindByFid` | src/handlers/PlayerLeaveHandler.ts:31-46 | an entry whose player has the fid, or none only when no entry has it |
| `PlayerLeave.Leave` | src/handlers/PlayerLeaveHandler.ts:16-48 | the registry ends as the scan state of exactly the leave targets |
| `PlayerLeave.LeftEverywhere` | src/handlers/PlayerLeaveHandler.ts:16-48 | afterwards no room in scope holds the player, and every room out of scope is untouched |
| `DisconnectHandler.FindBySocket` | src/handlers/DisconnectPlayer.ts:33-53 | an entry on the socket, found iff some entry is on that socket |
| `DisconnectHandler.DisconnectRoom` | src/handlers/DisconnectPlayer.ts:18-54 | one more room visited: it loses one player on the socket iff it has one |
| `DisconnectHandler.Disconnect` | src/handlers/DisconnectPlayer.ts:13-55 | exactly the rooms with a player on the socket lose one such player, through removePlayer |
| `DisconnectHandler.UnknownSocketChangesNothing` | src/handlers/DisconnectPlayer.ts:13-55 | a socket no player uses disconnects without changing rooms or intervals and evicts nothing |
| `SubmitWord.CalculateWordScore` | src/handlers/SubmitWordHandler.ts:48-51 | a word scores its JavaScript length: between one and two points per character |
| `SubmitWord.LengthScoreProperties` | src/handlers/SubmitWordHandler.ts:48-51 | the length score ignores case, is additive over concatenation, and is one point per character for text within the Basic Multilingual Plane |
| `SubmitWord.Submit` | src/handlers/SubmitWordHandler.ts:14-46 | a word is credited iff the room and player exist; then exactly that player's score grows by the word's score |
| `SubmitWord.SubmissionOnlyRaisesOneScore` | src/handlers/SubmitWordHandler.ts:25-28 | a submission never lowers a score and changes no other player, no other field and no board |
| `RefreshLetters.Refresh` | src/handlers/RefreshAvailableLetters.ts:8-25 | for an existing player, only its rack changes, to seven fresh letters; nothing changes otherwise |
| `LegacyServer.Joined` | src/index.ts:69-77 | reference definition: the joining player's entry: its fid as id, its display fields, not ready, not staked, score 0 |
| `LegacyServer.PlacedBoard` | src/index.ts:145-147 | a letter fills the cell only when the cell is empty; every other cell is kept |
| `LegacyServer.ClearedBoard` | src/index.ts:163-165 | the cell becomes empty; every other cell is kept |
| `LegacyServer.PlaceRemoveRoundTrip` | src/index.ts:139-172 | removing a letter just placed into an empty cell restores the board, and so does placing back a letter just removed |
| `LegacyServer.AfterDisconnect` | src/index.ts:203-221 | every room loses the socket's entry, and a room it leaves empty is deleted |
| `LegacyServer.DisconnectLeavesNoEntry` | src/index.ts:203-221 | no room keeps the socket's entry, no room it was in is left empty, and other entries are unchanged |
| `LegacyServer.EvictKeepsRegistered` | src/index.ts:212-219 | deleting a room after stopping its stored interval keeps the bookkeeping and at most one interval per room |
| `LegacyServer.StartKeepsRegistered` | src/index.ts:117-130 | storing a new interval keeps the bookkeeping; once the stored one is stopped, the new one is the room's only interval |
| `LegacyServer.RoomServer.constructor` | src/index.ts:38 | the server starts with no rooms and no intervals |
| `LegacyServer.RoomServer.ConnectToLobby` | src/index.ts:53-83 | creates a missing room (15×15 empty board, no timer, 300 seconds), then stores the joining player under its fid over any earlier entry |
| `LegacyServer.RoomServer.PlayerReady` | src/index.ts:85-99 | flags ready the entry stored under the socket id, if there is one; nothing else changes |
| `LegacyServer.RoomServer.PlayerStakeConfirmed` | src/index.ts:101-115 | flags staked the entry stored under the socket id, if there is one; nothing else changes |
| `LegacyServer.RoomServer.StartGameAsWritten` | src/index.ts:117-137 | starts and stores a new interval without stopping the one the room stored |
| `LegacyServer.RoomServer.StartGame` | src/index.ts:117-137 | stops the stored interval before starting the new one; afterwards the new interval is the room's only one |
| `LegacyServer.RoomServer.Tick` | src/index.ts:122-130 | a tick decrements the countdown; the game ends iff it reaches zero or below, and then the room's stored interval stops |
| `LegacyServer.RoomServer.PlaceLetter` | src/index.ts:139-155 | the letter is written iff the room exists, the cell is on the board and empty; a row off the board throws; otherwise nothing changes |
| `LegacyServer.RoomServer.RemoveLetter` | src/index.ts:157-172 | the cell is emptied iff the room exists, the cell is on the board and filled; a row off the board throws; a column off it is written outside the board |
| `LegacyServer.RoomServer.SubmitWord` | src/index.ts:174-198 | the entry under the socket id gains the word's JavaScript length, iff room and entry exist |
| `LegacyServer.RoomServer.Disconnect` | src/index.ts:200-222 | rooms become `AfterDisconnect`, and exactly the intervals of rooms still stored keep running |
| `LegacyServer.RoomServer.DisconnectRoom` | src/index.ts:204-219 | one room visited: the socket's entry is deleted, and the room is deleted with its interval when left empty |
| `LegacyServer.RoomServer.DeleteRoom` | src/index.ts:213-218 | the stored interval stops and the room is deleted |
| `LegacyServer.TwoStartsKeepEnding` | src/index.ts:117-130 | with the as-written start, two starts then a tick of each interval end the game twice, and the older interval keeps running |
| `LegacyServer.TwoStartsEndOnce` | src/index.ts:117-130 | with the corrected start, the game ends and no interval of the room is left running |

## Left out

- Socket broadcasts and joins, console logging, and the HTTP server setup are
  not modelled. Handlers return an outcome instead of emitting.
- Database and chain calls are not performed. Their requests are recorded in
  `effects`. Their results are parameters: the stored game record, the
  participants, and whether a participant record succeeds.
- The winner's notification message is not modelled, only its delivery
  flag. The conversation id and the winner's display name are left out for
  the same reason.
- Asynchronous interleaving is left out: each handler runs to completion
  before another starts. In the source, other events can run at each
  `await`. For example, `endGame` deletes the room only after its awaited
  database write, and `removePlayer` does not wait for `endGame`.
- Interval periods (1000 ms, 1200 ms) and wall-clock time are left out. A
  tick is an explicit method call.
- Random draws are nondeterministic choices. Weights and uniformity are not
  modelled.
- `Letters.RandomAvailableLetters`: requires that some table letter is not
  skipped. Otherwise the source's retry loop never ends.
- `Letters.Lower`: only folds ASCII `A`–`Z`. The Unicode case mapping of
  `toLowerCase` is not modelled.
- `Letters.LoadWords`: the word-list file is read by the caller. Its lines are
  a parameter.
- `WordGrid`: the board must be square and every position on it, as a
  `requires`. Off the board the source reads `undefined` or throws, and that
  behaviour is not modelled.
- `WordGrid`: a position is a pair of integers, not the `"x,y"` string key.
  The key is injective on integers, so the sets are the same.
- JavaScript numbers are unbounded integers here. Floating-point rounding of
  scores and countdowns is not modelled.
- Fids are one integer type. Several handlers receive fids as strings and
  look them up in maps keyed by numbers; that mismatch is not modelled.
- JavaScript `Map` insertion order is not modelled. Iteration is over some
  enumeration of the keys, and every result is proved for any enumeration.
- Rooms are values stored in a map, not shared objects. A handler's later
  reads of a room it fetched earlier are not modelled.
- `RoomManager.GameRoomManager.CreateGameRoom`: replacing a room drops the
  old room's intervals from the registry. In the source they keep ticking
  the detached room object.
- `RoomManager.GameRoomManager.EndGame`: the same holds for intervals of an
  evicted room that it no longer stores.
- `LegacyServer.RoomServer.DeleteRoom`: the same holds for intervals of a
  deleted room.
- `RoomManager.GameRoomManager.UpdateBoard`: requires the coordinates on the
  board. Off the board the source throws on a missing row or grows the row
  array.
- `LegacyServer.RoomServer.RemoveLetter`: a column off the board is reported
  as `WrittenOutsideBoard`, and the board is left as is. The source stores
  `""` at that index, which grows the row or adds a property.
- `Lobby.AddPlayerWithStake`: the four-argument `addPlayer` the lobby handler
  calls is not in `src/game-room-manager.ts` as shown. It is modelled as
  follows: write the roster, bind the contract game id, then record the
  participant with its stake flag.
- `StartGame.Handle`: the `gameRoomManager.initBoard` the handler awaits
  (`src/handlers/StartGameHandler.ts:124`) is not in
  `src/game-room-manager.ts` as shown. Called as written, it throws after the
  interval has started, so `game_started` and the dealt racks are never
  broadcast. The model leaves the board unchanged and returns the racks it
  deals, as the broadcast would carry them; the registry's state is the same
  either way, as the racks are never stored.
- `StartGame.Handle`: the awaited `startGame` and `updateGame` calls
  (`src/handlers/StartGameHandler.ts:47-51`) are assumed to succeed. They
  have no `try`/`catch`, so in the source a failure ends the handler before
  it sets 60 seconds and starts the interval; the model returns `Started`.
- `StartGame.Settle`: the awaited `setGameResult` and `setGameWinner` calls
  (`src/handlers/StartGameHandler.ts:80-85`) are assumed to succeed. In the
  source a failure ends the tick callback with `room.timer` still set and
  without `game_ended`; if `setGameResult` fails, the winner is not recorded
  either. The model always forgets the handle and records both requests.
- `RoomManager.GameRoomManager.EndGame`: the awaited `updateGame` call
  (`src/game-room-manager.ts:114-120`) is assumed to succeed. In the source a
  failure leaves the room registered; the model evicts it.
- The `getInstance` singleton accessor is not modelled. The registry is an
  object passed to each handler.

## Findings

| source | as written | input that shows it | evidently intended | confidence | as-written member | corrected member |
|---|---|---|---|---|---|---|
| src/index.ts:117-137 | `start_game` stores a new interval handle in the room without clearing the interval the room stored before, so the older interval keeps ticking and, once the countdown is out, emits `game_ended` on every tick while clearing only the newer handle | `start_game` sent twice for a room whose countdown is at 1, then one tick of each interval | stop the room's stored interval before starting a new one, as `startGameTimer` in `src/game-room-manager.ts:134-137` does | not executed | `LegacyServer.TwoStartsKeepEnding` | `LegacyServer.TwoStartsEndOnce` |
