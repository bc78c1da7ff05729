# Grid-maze search domain

A Dafny model of the maze domain that the program in `main.cpp` plugs into an A* engine.
It covers:

- the 20 x 20 terrain table and the lookup `GetMap` over it;
- the search state `MapSearchNode`: the goal test, state equality, the Manhattan-distance
  heuristic, the step cost and successor generation;
- the node's mutable parts: moving it, and subscribing and unsubscribing observers;
- `GameApp::getEvent`, which turns keyboard lines into game events.

Modules, one per concern of the source:

- `Terrain` (terrain.dfy): the table as 20 row constants, concatenated into `InitialWorld`.
  It holds the lookup the program evidently intends (`GetMap`) and the lookup as written
  (`GetMapAsWritten`). The table is a mutable global that the game writes into, so every
  lookup takes the table's current contents (`World`, exactly 400 entries) as a parameter.
  Facts about the table as the program initialises it are stated about `InitialWorld`.
- `MapSearch` (map_search_node.dfy): the state `Pos` (the engine copies nodes by value, so
  it only ever sees (x, y)), the state functions, a `Successors` specification function,
  and the class `MapSearchNode`. `GetSuccessors` is a method of that class and builds its
  result by four guarded appends. The sequence it returns stands for the calls it makes to
  the engine's `AddSuccessor`, in call order. A null parent is compared as the sentinel
  (-1, -1).
- `ObserverList` (observer_list.dfy): `std::list::remove` as `RemoveAll`, with lemmas
  saying it removes every occurrence and keeps the others in order and multiplicity.
- `SearchContract` (search_contract.dfy): what the engine relies on from this domain. On
  a table where every cell costs at least 1 (the initial one does), the heuristic is
  consistent and admissible along any chain of successors.
- `GameApp` (game_app.dfy): the input stream is a parameter (`input`, `start` position).
  `cin.get` takes one character. `cin.ignore(100, '\n')` takes at most 100 more
  characters, stopping after a newline. For input made of lines of 1 to 100 characters,
  the result is the event of the first line that starts with a command key.
- `Wrappers` (wrappers.dfy): `Option`.

Behaviour the model makes explicit:

- An empty line is read as the newline character itself. The discard that follows then
  swallows the next line when it is shorter than 100 characters, and at most 100
  characters of it otherwise (`EmptyLineSwallowsNextLine`, `EmptyLineSkipsShortLine`,
  `LongLineTailIsRead`).
- A line longer than 100 characters is not consumed whole: its tail, at least its
  newline, stays in the input and is read as further commands (`IgnoreAtLimit`,
  `LongLineTailIsRead`). Input is modelled as one character per byte (see Left out).
- The comment in `main` speaks of terrain codes 0 to 5. The table itself holds only 1
  and 9 (`InitialTerrainCodes`).
- The boundary check in `GetMap` is off by one (see Findings). The rest of the model
  (successors, cost) uses the corrected lookup. The lookup, the successor generation and
  the step cost as written are modelled beside it (`GetMapAsWritten`,
  `SuccessorsAsWritten`, `GetCostAsWritten`) and compared with it.

## Model

| member | source | states |
|---|---|---|
| `Terrain.GetMap` | main.cpp:72-79 | corrected lookup: on the map, the entry at y*20+x; anywhere else, 9 |
| `Terrain.GetMapAsWritten` | main.cpp:72-79 | lookup as written: it yields no value (a read past the table) exactly for row 20 with 0<=x<=20 and for (20,19); otherwise it yields 9 off the map, except in column 20 for rows 0 to 19 |
| `Terrain.AsWrittenAgreesElsewhere` | main.cpp:74-78 | outside column 20 and row 20, the written and the corrected lookups agree |
| `Terrain.AsWrittenWrapsToNextRow` | main.cpp:74-78 | for 0<=y<19, the written lookup of (20,y) reads world_map[(y+1)*20], cell (0,y+1), where the corrected lookup says 9 |
| `Terrain.InitialWorldWrapExample` | main.cpp:43-79 | on the initial table, (20,0) reads 1 as written and 9 when corrected |
| `Terrain.InitialWorldOverrunExample` | main.cpp:72-79 | (0,20), (20,19) and (20,20) read past the 400-entry table |
| `Terrain.InitialRowsCodes` | main.cpp:47-66 | every row of the initial table holds only 1 and 9 |
| `Terrain.InitialWorldCodes` | main.cpp:43-68 | the whole initial table holds only 1 and 9 |
| `Terrain.InitialTerrainCodes` | main.cpp:43-79 | every lookup on the initial table gives 1 or 9 |
| `MapSearch.IsSameState` | main.cpp:121-128 | true exactly when the two positions are equal |
| `MapSearch.IsGoal` | main.cpp:146-152 | true exactly when the node stands on the goal's position |
| `MapSearch.IsGoalIsSameState` | main.cpp:121-152 | the goal test and state equality are one predicate |
| `MapSearch.GoalDistanceEstimate` | main.cpp:141-144 | never negative; zero exactly when the goal test holds |
| `MapSearch.GoalDistanceSymmetric` | main.cpp:141-144 | the heuristic is symmetric |
| `MapSearch.GoalDistanceTriangle` | main.cpp:141-144 | the heuristic obeys the triangle inequality |
| `MapSearch.GetCost` | main.cpp:215-218 | the terrain code of the current cell (9 off the map) |
| `MapSearch.GetCostAsWritten` | main.cpp:215-218 | step cost with the written lookup: no value exactly when the current cell's read overruns the table; equal to `GetCost` away from column 20 and row 20 |
| `MapSearch.GetCostAsWrittenExample` | main.cpp:215-218 | leaving (20,0) costs 1 as written and 9 when corrected; leaving (5,20) reads past the table |
| `MapSearch.GetCostIgnoresSuccessor` | main.cpp:215-218 | the cost does not depend on the successor |
| `MapSearch.InitialPassableCostsOne` | main.cpp:215-218 | on the initial table, leaving any passable cell costs 1 |
| `MapSearch.Successors` | main.cpp:175-206 | the states passed to AddSuccessor: at most four, each a neighbour that is passable and not the parent's cell |
| `MapSearch.SuccessorsShape` | main.cpp:175-208 | at most four successors, all neighbours, in west, north, east, south order, none repeated |
| `MapSearch.SuccessorsExact` | main.cpp:175-206 | a neighbour is a successor if and only if its terrain is below 9 and it is not the parent's cell |
| `MapSearch.SuccessorProperties` | main.cpp:175-206 | every successor is at Manhattan distance 1, passable, on the map, and not the parent |
| `MapSearch.SuccessorsWithoutParent` | main.cpp:161-168 | with no parent (sentinel (-1,-1)) every passable neighbour is a successor |
| `MapSearch.HeuristicStep` | main.cpp:175-206 | moving to a successor changes the heuristic by exactly 1 |
| `MapSearch.SuccessorsAsWritten` | main.cpp:175-206 | successor generation with the written lookup; it has no result exactly when a neighbour's read overruns the table |
| `MapSearch.SuccessorsAsWrittenAgree` | main.cpp:175-206 | away from columns and rows 19 to 21 the written and the corrected generation agree |
| `MapSearch.SuccessorsLeaveMapExample` | main.cpp:191-197 | from (19,0) on the initial table, the written code adds (20,0), off the map; the corrected code gives (18,0), (19,1) |
| `MapSearch.SuccessorsLeaveMapFromLastColumn` | main.cpp:191-197 | from (19,y), 0<=y<19, the written generation has a result, and it offers the off-map (20,y) exactly when world_map[(y+1)*20] is below 9 |
| `MapSearch.SuccessorsAsWrittenLastRowOverruns` | main.cpp:199-205 | from every cell of row 19 the written generation reads past the table through its south neighbour (x,20) |
| `MapSearch.MapSearchNode.constructor` | main.cpp:88-92 | a new node stands at (0,0) with no observers |
| `MapSearch.MapSearchNode.At` | main.cpp:93-97 | a new node stands at (px,py) with no observers |
| `MapSearch.MapSearchNode.GetSuccessors` | main.cpp:158-209 | returns true, and passes the engine exactly `Successors` of its position, with the parent's position or the sentinel |
| `MapSearch.MapSearchNode.Move` | main.cpp:239-243 | the position becomes (newX,newY); the observers are untouched |
| `MapSearch.MapSearchNode.Subscribe` | main.cpp:220-224 | the observer is appended at the end |
| `MapSearch.MapSearchNode.Unsubscribe` | main.cpp:226-230 | the list becomes `RemoveAll` of the old list |
| `ObserverList.RemoveAll` | main.cpp:226-230 | the removed observer no longer occurs; the list does not grow |
| `ObserverList.RemoveAllIsSubsequence` | main.cpp:226-230 | the observers left keep their original order |
| `ObserverList.RemoveAllKeepsOthers` | main.cpp:226-230 | every other observer occurs as many times as before |
| `ObserverList.RemoveAllAppend` | main.cpp:226-230 | removal distributes over concatenation |
| `ObserverList.RemoveAllAbsent` | main.cpp:226-230 | removing an absent observer changes nothing |
| `ObserverList.RemoveAllIdempotent` | main.cpp:226-230 | unsubscribing twice equals unsubscribing once |
| `ObserverList.SubscribeThenUnsubscribe` | main.cpp:220-230 | subscribing o then unsubscribing o equals only unsubscribing o |
| `ObserverList.UnsubscribeOther` | main.cpp:220-230 | unsubscribing o leaves a later-subscribed p at the end |
| `SearchContract.InitialWorldPositive` | main.cpp:43-68 | every entry of the initial table is at least 1 |
| `SearchContract.HeuristicConsistent` | main.cpp:141-144 | with costs of at least 1, h(n) <= cost(n,s) + h(s) for every successor s |
| `SearchContract.HeuristicAdmissible` | main.cpp:141-144 | with costs of at least 1, h never exceeds the accumulated cost of a chain of successors to its last state |
| `SearchContract.InitialChainCostIsLength` | main.cpp:215-218 | on the initial table, a chain from open ground costs its number of steps |
| `GameApp.KeyEvent` | main.cpp:465-480 | Q, w, a, s, d, S map to quit, up, left, down, right, search; no key maps to noop |
| `GameApp.KeyEventRoundTrip` | main.cpp:465-480 | each event other than noop has exactly one key |
| `GameApp.IgnoreCount` | main.cpp:464 | the discard takes at most 100 characters and no more than remain |
| `GameApp.IgnoreAtLimit` | main.cpp:464 | with no newline among the first 100 characters, the discard takes exactly 100 |
| `GameApp.IgnoreToEnd` | main.cpp:464 | when the input ends before the limit without a newline, the discard takes all of it |
| `GameApp.EventFrom` | main.cpp:459-483 | reading an event never consumes more than the input holds |
| `GameApp.GetEvent` | main.cpp:459-483 | the loop returns what `EventFrom` specifies, and the new position lies between the start and the end of the input |
| `GameApp.CommandIndex` | main.cpp:462-482 | the first line whose first character is a command key; every earlier line starts with another character |
| `GameApp.IgnoreThroughNewline` | main.cpp:464 | on a short line the discard takes the rest of the line and its newline, nothing more |
| `GameApp.ReadShortLine` | main.cpp:462-481 | a short line's first character decides the event, and the whole line is consumed |
| `GameApp.EventFromLines` | main.cpp:459-483 | on lines of 1 to 100 characters: the event of the first line that starts with a command key, consumed through that line; otherwise noop with all input consumed |
| `GameApp.LongLineTailIsRead` | main.cpp:462-478 | after any non-command first character (a letter, or the newline of an empty line) and 100 more characters the discard stops, and the following Q is read as quit |
| `GameApp.EmptyLineSwallowsNextLine` | main.cpp:462-464 | the input "\nQ\n" yields noop: the empty line's discard swallows the Q line |
| `GameApp.EmptyLineSkipsShortLine` | main.cpp:462-481 | after an empty line, a next line of fewer than 100 characters is discarded whole and reading goes on after it |

## Findings

| source | as written | input that shows it | evidently intended | confidence | as-written member | corrected member |
|---|---|---|---|---|---|---|
| main.cpp:74 | `x>MAP_WIDTH`, `y>MAP_HEIGHT` let x==20 and y==20 through to the table read | GetMap(20,0) returns world_map[20], the cell (0,1); GetMap(0,20) reads world_map[400], past the 400-entry table | `x>=MAP_WIDTH`, `y>=MAP_HEIGHT`, so any cell off the map reads 9 | not executed; high | `Terrain.GetMapAsWritten` (`Terrain.AsWrittenWrapsToNextRow`, `Terrain.InitialWorldOverrunExample`) | `Terrain.GetMap` |
| main.cpp:191-205 | the east and south neighbours are tested with the written lookup | from (19,0) on the initial table, (20,0) is passed to the engine as a successor; from every cell of row 19 the south neighbour's read goes past the table | successors always lie on the map | not executed; high | `MapSearch.SuccessorsAsWritten` (`MapSearch.SuccessorsLeaveMapExample`, `MapSearch.SuccessorsAsWrittenLastRowOverruns`) | `MapSearch.MapSearchNode.GetSuccessors` (`MapSearch.SuccessorProperties`) |

## Left out

- The A* engine (`stlastar.h`) is not part of this model. Its calls in main.cpp:352-451 are foreign: setting start and goal, stepping, walking the solution, freeing nodes. Only the contract it relies on is stated (`SearchContract`).
- `GameApp::updateGame` (main.cpp:312-457) is driven by the engine. Its movement cases fall through into the search, and the noop case reaches the end without a return value.
- `notify` and `PosPlayer::update`/`show` (main.cpp:232-237, 246-301) dispatch to observers and print. That is console I/O plus a write into the table. The write is why the table is a parameter.
- `PrintNodeInfo` (main.cpp:130-136) prints the position and then calls `notify`, whose effects (including the write into the table) are covered by the `notify` line above.
- `renderHUD` and the SFML window in `main` (main.cpp:515-571) are output only.
- Subject.h and Observer.h are abstract interfaces with no logic. An observer is modelled only by its identity (`MapSearch.Observer`).
- The heuristic and the cost are floats in the source. Their values are small integers, so they are modelled as `int`.
- 32-bit overflow of the coordinates, in `x-1` or `abs`, is not modelled. Integers are unbounded.
- `GetEvent` and `EventFrom` take one element of the string per byte that `cin.get` reads. That is exact for ASCII input. A multi-byte character in the input is one element in the model but several bytes for the program, so the 100-byte discard limit is not modelled for such input.
- `MapSearch.GetCost`: uses the corrected lookup, so at (20,y) it gives 9 where the program reads world_map[(y+1)*20], and in row 20 where the program reads past the table. The cost as written is `MapSearch.GetCostAsWritten`.
- `GetEvent` takes input as a string and a position. EOF is the end of that string. Stream error states other than EOF are not modelled.
- `MapSearch.MapSearchNode.GetSuccessors` uses the corrected lookup. The written lookup's successor generation is `MapSearch.SuccessorsAsWritten`, which is a function and not the method.
