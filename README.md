# ai-quest core, modelled in Dafny

ai-quest is a multiplayer text adventure. A server keeps one shared world.
Players send free-text actions, and a language model narrates one turn for
each group of players whose locations are connected. This project models the
non-narrative core of that server and of the client's data model, and proves
properties of the model:

- **World state** (`server/game/state.py`, module `World`, with `Locations`,
  `Graph` and `Changes`). `GameState` is a class over a player registry, a
  location map and an undirected adjacency map. Its methods are get-or-create
  of a location, adding and removing a player, the turn delta
  (`apply_turn_changes`: descriptions, CREATE/DESTROY edges, flags, inventory,
  status, moves), the breadth-first connected-component search, start and
  reset, the group player lookup and the statistics. Every method keeps
  `GameState.Valid()`:
  - the graph is symmetric, and every location is a node;
  - each registered player stands in exactly the location it names;
  - pending actions are a subset of the players present.
- **Turn scheduler** (`server/game/engine.py`, module `Engine`). `GameEngine`
  holds `turn_processing_locks` and a ghost `log` of decisions. Handing a turn
  to the nursery becomes a `Dispatched` entry in that log. The group check
  partitions playing players by connected component, skips locked or empty
  groups, detects merge turns and dispatches ready groups. The turn body
  (`ProcessTurn`) ticks status effects, counts the turn, fills idle actions,
  records the narration and applies the delta. Its `finally` block
  (`FinishTurn`) synchronises counters after a merge, clears the turn and
  releases the key. The narrator's reply (the narration text and an optional
  delta) is a parameter.
- **Player record** (`server/game/player.py`, module `Players`). The defaults,
  `reset`, and the status-effect tick that `engine.py` performs on
  `status_effects`.
- **Prompt helpers** (`server/llm/prompts.py`, module `Prompts`). The
  in-group connection listing, the history section and its trimming, the
  actions line and its idle fallback, and the choice of principles and of
  scene focus. Also the merge-conflict test and the "never reuse a story
  element" bookkeeping of the focus selection. The random choices in that
  selection are an oracle passed as a parameter.
- **Client data model** (`client/model.py`, module `ClientModel`). The field
  defaults, and the bounded lobby-message buffer that
  `set_lobby_message_capacity` resizes while keeping the newest messages.

Python's iteration order over sets and dictionaries is not specified by the
code. The model walks them in an arbitrary order (`Common.Enumerate`, `:|`).
Every contract holds for every order. Python truthiness of an optional name
(`None` or `""` is absent) is `Common.Truthy`.

`player.py` and `engine.py` disagree on one point: `Player` in
`server/game/player.py` has no `status_effects` field, but `engine.py`
reads and writes one. The model follows the engine. `Player` gets a
`statusEffects` field, empty by default, which `Reset` leaves unchanged.

`_move_player_to_location_unsafe` (state.py:202-217) first leaves the old
location and then gets or creates the destination. The model
(`World.GameState.MovePlayerToLocation`) creates the destination first. The
two orders give the same state, because creating a location touches no other
location.

## Model

| member | source | states |
|---|---|---|
| Common.Strip | server/game/state.py:39-40 | `str.strip()`: the result is no longer than the input and starts and ends with a non-blank character; it is empty exactly when every character is whitespace |
| Common.StripIsSlice | server/game/state.py:39-40 | the result of `str.strip()` is the slice of the input that remains once its leading and its trailing whitespace are cut off |
| Common.JoinContainsPart | server/llm/prompts.py:137-139 | a character of one part of `sep.join(parts)` occurs in the joined text |
| Graph.EnsureNode | server/game/state.py:81 | a new name gets an empty neighbour set; a known name and every other entry stay as they were |
| Graph.AddEdge | server/game/state.py:166-169 | CREATE adds `b` to `a`'s neighbours and `a` to `b`'s, and changes nothing else |
| Graph.RemoveEdge | server/game/state.py:171-173 | DESTROY removes the edge in both directions and changes nothing else |
| Graph.EnsureNodeSymmetric | server/game/state.py:81 | adding a node keeps the graph symmetric |
| Graph.AddEdgeSymmetric | server/game/state.py:166-169 | CREATE keeps the graph symmetric |
| Graph.RemoveEdgeSymmetric | server/game/state.py:171-173 | DESTROY keeps the graph symmetric |
| Graph.AddEdgeIdempotent | server/game/state.py:166-169 | repeating CREATE changes nothing more |
| Graph.RemoveEdgeIdempotent | server/game/state.py:171-173 | repeating DESTROY changes nothing more, and destroying a missing edge changes nothing |
| Graph.ReachableStaysInGraph | server/game/state.py:227-233 | in a symmetric graph, whatever is reachable from a node is a node |
| Graph.ReachableFromMissing | server/game/state.py:222-223 | from a name that is not a node only the name itself is reachable |
| Graph.ReachableBack | server/game/state.py:167-168 | in a symmetric graph reachability goes both ways |
| Graph.ReachableTrans | server/game/state.py:227-233 | reachability composes |
| Graph.ComponentsMeet | server/game/engine.py:93-97 | two components of a symmetric graph that share a name are the same component |
| Graph.ComponentsApart | server/game/engine.py:93-97 | components whose roots do not reach each other share no name |
| Players.Player.constructor | server/game/player.py:11-15 | a new player has no location, the inventory `["фонарик"]`, the status `["здоров"]`, no status effects and an empty personal history |
| Players.Player.Reset | server/game/player.py:17-22 | `reset` restores no location, `["фонарик"]`, `["здоров"]` and an empty personal history; the name is a constant and the status effects are kept |
| Players.WithItems | server/game/state.py:188-190 | `inventory_add` keeps the inventory as a prefix, adds exactly the items not already present, and never creates a duplicate |
| Players.WithoutItems | server/game/state.py:191-193 | `inventory_remove` keeps exactly the items not removed, with the same count for each, as a subsequence of the old inventory (so in order) |
| Players.SubsequenceNoDuplicates | server/game/state.py:191-193 | a subsequence of an inventory without duplicates has none |
| Players.SubsequenceElements | server/game/state.py:191-193 | a subsequence holds only items of the original |
| Players.Tick | server/game/engine.py:143-151 | every effect either survives or expires, so the survivors and the expiry names together number the effects |
| Players.TickOutcomes | server/game/engine.py:144-150 | an untimed effect survives; a timed effect at 1 or less expires under its name; a longer one survives with one turn less |
| Players.TickSurvivors | server/game/engine.py:144-150 | every survivor is an untimed effect of the player or a timed one with one turn less |
| Players.TickFacts | server/game/engine.py:144-150 | the outcomes and the survivor property together |
| Players.Ticked | server/game/engine.py:151-153 | the new effect list is never empty: the survivors, or exactly one default "здоров" effect when none survive; when any survive the new list is exactly the survivors |
| Locations.Location.constructor | server/game/state.py:14-22 | a new location has the given description, no players, one SYSTEM "Мир вокруг" history entry, no used elements, counter 0 and no pending actions |
| Locations.Location.AddPlayer | server/game/state.py:24-26 | the player is present and one SYSTEM join entry is appended |
| Locations.Location.RemovePlayer | server/game/state.py:28-31 | the player is neither present nor pending, and one SYSTEM leave entry is appended |
| Locations.Location.AddPlayerActionToHistory | server/game/state.py:33-35 | exactly one `ACTION u: a` entry is appended |
| Locations.Location.AddNarrationToHistory | server/game/state.py:38-43 | a blank narration appends nothing; any other appends one NARRATE entry of the stripped text |
| Locations.Location.AddSystemMessageToHistory | server/game/state.py:45-47 | exactly one SYSTEM entry is appended |
| Locations.Location.ClearTurnData | server/game/state.py:50-51 | the pending actions are empty |
| Changes.ScreenConnectionAsWritten | server/game/state.py:156-160 | the screen as written raises exactly when `locations` is missing or has no length |
| Changes.MissingLocationsRaise | server/game/state.py:158 | a CREATE without `locations` raises as written and is skipped by the corrected screen |
| Changes.ScreenConnection | server/game/state.py:156-161 | the corrected screen never raises, and accepts exactly a truthy action with a two-element list, whose ends it returns |
| Changes.ScreensAgree | server/game/state.py:156-160 | wherever the code as written does not raise, the corrected screen decides the same |
| Changes.ApplyConnection | server/game/state.py:155-174 | a skipped update leaves the graph; an accepted one adds both ends as nodes, CREATE joins them, DESTROY separates them, and no other node's neighbours change |
| Changes.ApplyConnectionSymmetric | server/game/state.py:155-174 | one connection update keeps the graph symmetric |
| Changes.ApplyConnectionsSymmetric | server/game/state.py:154-174 | the whole list of connection updates keeps the graph symmetric |
| Changes.ApplyConnectionIdempotent | server/game/state.py:163-173 | applying the same connection update twice equals applying it once |
| Changes.LocationUpdateNames | server/game/state.py:146-149 | the names created by the location updates are exactly the truthy names they give |
| Changes.LastDescription | server/game/state.py:150-151 | a name has a last description exactly when some update for it carries one |
| World.InitialDescription | server/game/state.py:79 | a name without story data starts with the placeholder; a name whose story gives an initial description starts with it; a name whose story gives none starts with the placeholder |
| World.EnsureNodeDegreeSum | server/game/state.py:287-291 | creating a location does not change the connection count |
| World.ConnectionCountOnEdit | server/game/state.py:166-173 | in a symmetric graph and for two different locations, creating a new edge raises `connection_count` by exactly 1 and destroying an existing one lowers it by exactly 1 |
| World.WithNodesSymmetric | server/game/state.py:149-164 | adding nodes keeps the graph symmetric |
| World.DescribeAllAt | server/game/state.py:145-152 | after the location updates, the names are the old ones plus the named ones, and each carries its last described text, else its old or initial description |
| World.MoveTargets | server/game/state.py:197-198 | the destinations are exactly the truthy `move_to_location` values of updates for registered players |
| World.InventoryAfterNoDuplicates | server/game/state.py:188-193 | the player updates keep an inventory free of duplicates |
| World.UpdatePlayersAllAt | server/game/state.py:180-198 | the updates keep the set of registered players and give each player the inventory, status and location its own updates lead to; updates for unknown names change nothing |
| World.MoveLogCount | server/game/state.py:197-198 | one `(player, old location)` pair is recorded per move of a registered player, and only for registered players |
| World.StepTouchedMeans | server/game/state.py:197-198 | the locations one player update can change are its target, when it names a registered player and a truthy target, and the location its move entry records as left |
| World.SearchStep | server/game/state.py:227-233 | one BFS step keeps the frontier invariant (visited and queued names are reachable, and the neighbours of visited names are visited or queued), and visits the head exactly when it was unvisited |
| World.EnqueueUnvisited | server/game/state.py:231-233 | the queue is extended by the unvisited neighbours, all of them and nothing else |
| World.GameState.constructor | server/game/state.py:60-72 | a new state is valid, in the lobby, with no players, locations, edges or flags, the default fear weights and the turn settings 4, 2 and 8192 |
| World.GameState.GetOrCreateLocation | server/game/state.py:75-83 | a known name changes nothing; an unknown one gets a fresh location in its initial state and an empty neighbour set; no player or other location changes |
| World.GameState.AddLocation | server/game/state.py:77-82 | a new name gets a fresh initial location and an empty neighbour set, keeping the state valid |
| World.GameState.AddPlayer | server/game/state.py:90-118 | "full" when the registry holds at least 4, checked before "taken" for a known name, both changing nothing; otherwise "success", and the player is registered, in the lobby with no location, or in the active game placed in the start room with its join entry |
| World.GameState.EnterStartRoom | server/game/state.py:108-113 | the new player is registered at the start room, which is created if needed, is present there and gets its join entry |
| World.GameState.EnterLobby | server/game/state.py:114-116 | the new player is registered without a location |
| World.GameState.RemovePlayer | server/game/state.py:120-131 | an unknown name returns null and changes nothing; a known one is unregistered, leaves its location (presence, pending action, leave entry) and its last location is returned |
| World.GameState.Detach | server/game/state.py:210-211 | the player leaves its old location, which only loses it |
| World.GameState.Attach | server/game/state.py:213-215 | the player names the location, is present there with a join entry, and no other location changes |
| World.GameState.MovePlayerToLocation | server/game/state.py:202-217 | the player leaves its old location and stands in the destination, which is created if needed; exactly one `(player, old)` pair is recorded; no other player changes |
| World.GameState.Relocate | server/game/state.py:210-215 | moving to an existing location: presence, pending action and the leave and join entries as the code writes them, also when old and new coincide |
| World.GameState.GetConnectedComponent | server/game/state.py:219-234 | the result holds the start, is `{start}` when the start is not a node, and holds exactly the names reachable from the start |
| World.GameState.ApplyLocationUpdates | server/game/state.py:145-152 | the location updates create exactly the named locations, add them as nodes, set the descriptions `DescribeAllAt` describes, and keep every old location object with its players, pending actions and history |
| World.GameState.ApplyLocationUpdate | server/game/state.py:146-152 | one update: a truthy name is got or created and described when a description is given; an empty name is skipped |
| World.GameState.DescribeLocation | server/game/state.py:149-151 | the named location exists and has the new description |
| World.GameState.GetOrCreateDescribed | server/game/state.py:149 | the named location exists and keeps its description, or gets its initial one |
| World.GameState.SetDescription | server/game/state.py:150-151 | only that location's description changes |
| World.GameState.ApplyConnectionUpdates | server/game/state.py:154-174 | the graph becomes `ApplyConnections` of the old graph; the new-connection flag holds exactly when some update is an accepted CREATE; old location objects are kept unchanged and new ones are fresh and initial |
| World.GameState.ConnectionUpdateStep | server/game/state.py:155-174 | the update at `i` carries the graph, the new-connection flag and the created locations from the first `i` updates to the first `i + 1` |
| World.GameState.ApplyConnectionUpdate | server/game/state.py:155-174 | one connection update, with its locations created first |
| World.GameState.EnsureLocations | server/game/state.py:163-164 | both ends exist afterwards, as nodes, new ones fresh and initial |
| World.GameState.EditEdge | server/game/state.py:166-173 | CREATE joins the ends, DESTROY separates them, any other action leaves the graph; the flag is set exactly for CREATE |
| World.GameState.ApplyTurnChanges | server/game/state.py:133-200 | the whole delta: graph, flags, player views and move log as the value-level definitions say; each location keeps the last description the location updates give it, else its old one, and a location created by the turn otherwise starts with its initial description; the registry and the phase stay; the state stays valid |
| World.GameState.ApplyWorldChanges | server/game/state.py:145-177 | the location updates, then the connection updates, then the flag merge: descriptions as `DescribeAll` gives them, with new locations otherwise initial; graph and flags as specified; the registry, the phase and every player record stay; no location's players, pending actions or history change |
| World.GameState.ConnectLocations | server/game/state.py:154-174 | the connection updates keep every old description and each location they create starts with its initial one; no player record changes, and no old location's players, pending actions or history |
| World.GameState.MergeFlags | server/game/state.py:176-177 | the flags are the old ones updated by the given ones; locations, descriptions, players, pending actions and histories stay |
| World.GameState.ApplyPlayerUpdates | server/game/state.py:180-198 | the player views become `UpdatePlayersAll` of the old views, the move log is `MoveLog`, the graph gains exactly the move targets as nodes, old descriptions stay and each new location starts with its initial one |
| World.GameState.PlayerUpdateStep | server/game/state.py:180-198 | the update at `i` carries the player views, the move log, the graph and the descriptions from the first `i` updates to the first `i + 1` |
| World.GameState.DescribedPlayerUpdate | server/game/state.py:181-198 | one player update keeps every old description and each location it creates starts with its initial one |
| World.GameState.ApplyPlayerUpdate | server/game/state.py:181-198 | one player update: unknown names change nothing; inventory, status and move as specified; new locations start with their initial description; only the location a moved player leaves and the one it enters change their players, pending actions or history |
| World.GameState.EditAndMove | server/game/state.py:188-198 | the edits and then the move of one registered player |
| World.GameState.EditPlayer | server/game/state.py:188-195 | inventory and status edits of one registered player, nothing else; no location's players, pending actions or history change |
| World.GameState.MoveSeen | server/game/state.py:197-198 | a move changes only that player's location in the player views and records one pair |
| World.GameState.ResetToLobby | server/game/state.py:259-270 | the phase is the lobby, locations, graph and flags are empty, and every player is reset |
| World.GameState.StartGame | server/game/state.py:272-285 | outside the lobby it returns false, changes nothing and the state stays valid; otherwise the phase is active and every registered player names and stands in the start room, with one join entry each |
| World.GameState.GatherAtStart | server/game/state.py:281-284 | the start room exists and every registered player is placed there with one join entry each |
| World.GameState.PlaceAll | server/game/state.py:282-284 | every registered player names the start room and is present there, with one join entry each |
| World.GameState.PlaceOne | server/game/state.py:283-284 | one player names the start room and gets its presence and join entry; the others keep their locations |
| World.GameState.AllAtStart | server/game/state.py:282-284 | with everyone at the start room, the players standing there are exactly the registered ones |
| World.GameState.PlayersAt | server/game/state.py:245-248 | the registered players present at one location, once each |
| World.GameState.GetPlayersInLocations | server/game/state.py:240-249 | exactly the registered players present at the given names, each standing at one of them, none twice when the names are distinct |
| World.GameState.GetStats | server/game/state.py:287-298 | the player, location and `sum(degrees) // 2` connection counts, the phase, and the flags or "Нет" |
| Engine.MaxCounter | server/game/engine.py:216-218 | the maximum turn counter of the group: no location exceeds it and one attains it |
| Engine.MergeIffCountersDiffer | server/game/engine.py:110-111 | a turn is a merge turn exactly when two of the group's locations show different counters |
| Engine.SameCounterNoMerge | server/game/engine.py:216-218 | once every location shows the same counter there is a single counter, so the next turn is not a merge |
| Engine.KeyIndex | server/game/engine.py:96-97 | finds the group entry with a given key, or says there is none |
| Engine.Narrated | server/game/engine.py:190-194 | a blank narration adds no history line; otherwise exactly the NARRATE line of the stripped text |
| Engine.Pended | server/game/engine.py:71-73 | after the opening narration, given actions stay and every other player found there looks around |
| Engine.PendedAdd | server/game/engine.py:71-73 | one more player changes nothing when it already has an action, and otherwise adds its look-around action |
| Engine.AddUnvisited | server/game/engine.py:99-103 | the member list keeps its prefix and gains exactly the found players not yet visited, with no duplicates; every found player becomes visited |
| Engine.FileComponent | server/game/engine.py:94-103 | filing a new component keeps the partition invariant and gathers exactly the players found there |
| Engine.GroupingExtended | server/game/engine.py:93-103 | a new group for an unclaimed component, with its unvisited players, extends the partition |
| Engine.VisitedCovered | server/game/engine.py:89-103 | when every playing player is visited, every one of them is in some group |
| Engine.GroupingKeysDistinct | server/game/engine.py:96-97 | the groups of a partition have distinct keys |
| Engine.Verdict | server/game/engine.py:105-127 | a locked or empty group gets nothing; a group with at least as many actors as members is dispatched, as a merge when its counters differ; any other gets the waiting notice that excludes the actors |
| Engine.VerdictsKeys | server/game/engine.py:105 | every decision of a pass names one of its groups |
| Engine.NoDoubleDispatch | server/game/engine.py:105-124 | a pass never dispatches a key that was already locked, nor the same key twice |
| Engine.DispatchedIffReady | server/game/engine.py:105-127 | with distinct keys, a group is dispatched exactly when it is ready, and sent the waiting notice exactly when it is unlocked, non-empty and not ready |
| Engine.GameEngine.constructor | server/game/engine.py:32-37 | no lock is held and nothing was dispatched |
| Engine.GameEngine.RecordAction | server/game/engine.py:40-52 | an unregistered or location-less player is ignored; a second action while one is pending changes nothing; otherwise the action is pending and one ACTION entry is appended |
| Engine.GameEngine.HandlePlayerAction | server/game/engine.py:40-57 | `RecordAction`'s outcome, and the group check runs exactly after a recorded action |
| Engine.GameEngine.TickPlayers | server/game/engine.py:141-153 | every player's effects are ticked once, and the messages are the expiry messages in player and effect order |
| Engine.GameEngine.RecordExpiries | server/game/engine.py:155-158 | one SYSTEM entry per expiry message, in order |
| Engine.GameEngine.TickAndRecord | server/game/engine.py:141-158 | the ticks, and the expiry entries in the first location's history |
| Engine.GameEngine.CountTurn | server/game/engine.py:160-161 | every group counter goes up by exactly 1 |
| Engine.GameEngine.FillIdleAt | server/game/engine.py:164-167 | every present player without an action gets the idle action and its ACTION entry, once each; other actions are kept |
| Engine.GameEngine.FillIdle | server/game/engine.py:163-168 | afterwards the pending players of each group location are exactly the players present |
| Engine.GameEngine.OpenTurn | server/game/engine.py:141-168 | the ticks, the expiry entries in the first location, the counters up by 1 unless a merge turn, and the idle fill |
| Engine.GameEngine.Synchronise | server/game/engine.py:217-218 | every group counter equals the target |
| Engine.GameEngine.MergeCounters | server/game/engine.py:216-218 | every counter becomes the previous maximum plus one, leaving a single counter |
| Engine.GameEngine.ClearGroup | server/game/engine.py:222-223 | every group location has no pending action |
| Engine.GameEngine.FinishTurn | server/game/engine.py:215-226 | the `finally` block: a merge synchronises to max + 1, otherwise counters stay; pending actions are cleared; the key is released and the turn logged as finished |
| Engine.GameEngine.FindPlayers | server/game/engine.py:136 | the registered players present in the group, none twice |
| Engine.GameEngine.GroupPlayers | server/game/engine.py:136-139 | some player is found exactly when someone registered stands in the group |
| Engine.GameEngine.ComponentPlayers | server/game/engine.py:99 | the players found for a component are exactly the playing players standing in it |
| Engine.GameEngine.PlayersIn | server/game/engine.py:99 | the same, as the lookup the partition performs |
| Engine.GameEngine.NewComponent | server/game/engine.py:93 | the component of an unvisited playing player's location shares no name with the groups gathered so far |
| Engine.GameEngine.GatherOne | server/game/engine.py:90-103 | a visited or location-less player is skipped; otherwise its component is filed and it is gathered |
| Engine.GameEngine.GroupStep | server/game/engine.py:89-103 | one player of the partition loop keeps the loop invariant |
| Engine.GameEngine.Partition | server/game/engine.py:86-103 | the groups are distinct components of existing locations, and each playing player is in exactly the group of its location's component, once; lobby players are in none |
| Engine.GameEngine.LocationsOf | server/game/engine.py:109 | the locations of a key, each once |
| Engine.GameEngine.SurveyGroup | server/game/engine.py:110-119 | the merge test and the union of the group's pending actions |
| Engine.GameEngine.Inspect | server/game/engine.py:109-119 | what the dispatcher reads off a group: the merge test and the actors |
| Engine.GameEngine.DispatchOne | server/game/engine.py:105-127 | one group: the log grows by its `Verdict`, and the locks by its key exactly when it is dispatched |
| Engine.GameEngine.DispatchReady | server/game/engine.py:105-127 | the dispatch loop appends the pass's `Verdicts` and locks exactly the dispatched keys |
| Engine.GameEngine.CheckAndProcessAllGroups | server/game/engine.py:80-127 | the partition of the current world and the appended decisions, or nothing with nobody registered |
| Engine.GameEngine.NobodyChecked | server/game/engine.py:82-84 | with nobody registered, the empty pass is the whole check |
| Engine.GameEngine.GroupAndDispatch | server/game/engine.py:86-127 | the partition followed by the dispatch loop over its groups |
| Engine.GameEngine.OnPlayerRemoved | server/game/engine.py:76-78 | the group check runs exactly when the departed player stood somewhere |
| Engine.GameEngine.PendLookAround | server/game/engine.py:71-73 | each player found without an action looks around; given actions stay |
| Engine.GameEngine.PlayersFoundAt | server/game/engine.py:67 | the players found are exactly those registered at the location |
| Engine.GameEngine.LookAroundAt | server/game/engine.py:67-73 | the look-around fill at one location, reporting whether anyone stands there |
| Engine.GameEngine.PrepareStartRoom | server/game/engine.py:65-73 | the start room exists and everyone standing there has an action |
| Engine.GameEngine.NarrateInitialRoomForAll | server/game/engine.py:64-74 | the start room is got or created, its players look around, and the group check runs exactly when someone stands there |
| Engine.GameEngine.StartGame | server/game/engine.py:59-62 | outside the lobby nothing is dispatched, the phase, locations and graph stay and the state stays valid; otherwise the state is valid and active, everyone stands in the start room with an action, and the group check has run when someone is registered |
| Engine.GameEngine.OpenGame | server/game/engine.py:62 | the opening narration with everyone in the start room gives each of them an action |
| Engine.GameEngine.NarrateGroup | server/game/engine.py:192-194 | every group location's history gains the narration's line, if any |
| Engine.GameEngine.ApplyChanges | server/game/engine.py:206-207 | the delta is applied, and the re-check flag holds exactly when some player moved or a connection was created |
| Engine.GameEngine.RecheckIf | server/game/engine.py:207-209 | the group check runs exactly when asked, and never hands out a key that was locked before |
| Engine.GameEngine.ApplyDelta | server/game/engine.py:205-209 | the delta, and the re-check exactly when it reshapes the groups, which never dispatches a locked key |
| Engine.GameEngine.NarrateAndApply | server/game/engine.py:190-209 | a blank narration or a missing delta causes no re-check; counters stay |
| Engine.GameEngine.RunTurn | server/game/engine.py:134-211 | a group where nobody stands dispatches nothing and keeps its counters; otherwise the turn opens and the counters go up by 1 unless it is a merge turn |
| Engine.GameEngine.ProcessTurn | server/game/engine.py:129-226 | the whole turn: the `finally` block always runs, so pending actions are cleared, counters are synchronised after a merge, the key is released, and a nested re-check never dispatches the turn's own key |
| Prompts.SortedPair | server/llm/prompts.py:39 | the pair's names in strictly ascending order |
| Prompts.CollectLinks | server/llm/prompts.py:33-38 | exactly the unordered pairs of group names joined by an edge |
| Prompts.GroupConnections | server/llm/prompts.py:31-39 | every in-group connection is listed, once, as a sorted pair |
| Prompts.ConnectionEndsInGroup | server/llm/prompts.py:33-39 | each listed pair has one or two names, all in the group, ascending and joined by an edge |
| Prompts.ConnectionListedOnce | server/llm/prompts.py:34-38 | an edge listed from both ends appears exactly once |
| Prompts.LastEntries | server/llm/prompts.py:125 | `h[-15:]`: the last `min(15, len)` entries |
| Prompts.PySuffix | server/llm/prompts.py:131 | Python's `s[-k:]`: the last `k` characters for positive `k`, and the whole text for `k == 0` |
| Prompts.Find | server/llm/prompts.py:132 | `find('\n')`: the first index of the character, or -1 exactly when absent |
| Prompts.AfterFirstNewline | server/llm/prompts.py:132-133 | the text after the first newline, so a suffix that follows a newline with no newline before that one; the whole text when it has no newline |
| Prompts.TrimHistoryBounds | server/llm/prompts.py:130-134 | a history within the limit is unchanged; a longer one is the marker line plus a suffix of at most `max` characters that starts a line |
| Prompts.KeptAfterFirstNewline | server/llm/prompts.py:132-133 | dropping the text up to the first newline of the kept tail leaves a suffix of the history of at most `max` characters that follows a newline, or the whole tail when it has none |
| Prompts.TrimAsWrittenPositive | server/llm/prompts.py:130-134 | for a positive limit the trim as written equals the intended one |
| Prompts.TrimAsWrittenZeroKeepsAll | server/llm/prompts.py:131 | with a limit of 0 the code as written keeps everything after the first line, while the intended trim keeps nothing |
| Prompts.MergeActionsLastWins | server/llm/prompts.py:123-127 | the merged actions are exactly the group's pending actions, and a player pending at several locations keeps the last one |
| Prompts.ActionsIdleIffNone | server/llm/prompts.py:137-139 | the idle line appears exactly when no action is pending; otherwise the text is one line per action |
| Prompts.ChoosePrinciples | server/llm/prompts.py:168-170 | immersion principles exactly when the counter is below `immersion_turns` |
| Prompts.SelectionSettles | server/llm/prompts.py:141-170 | once a location has left immersion it stays there, and once it gets no scene focus it never gets it again |
| Prompts.DescriptionsAt | server/llm/prompts.py:150-152 | `desc_map` has exactly the group's names, each with exactly the descriptions paired with it |
| Prompts.ConflictIffTwoVersions | server/llm/prompts.py:154-157 | a name conflicts exactly when it comes with two different descriptions |
| Prompts.DistinctNamesNoConflict | server/llm/prompts.py:146-166 | with distinct location names there is no conflict, so no merge-conflict section, whatever the counters |
| Prompts.Available | server/llm/prompts.py:69 | the pool's items not yet used |
| Prompts.StructureLabelled | server/llm/prompts.py:10-28 | every category of the fixed structure has a label |
| Prompts.FallbackPick | server/llm/prompts.py:75-82 | nothing is found exactly when every fear kind's pool is used up; otherwise an unused item of some pool |
| Prompts.DrawSlot | server/llm/prompts.py:65-82 | one draw, weighted pick then fallback: nothing exactly when every pool is used up, otherwise an unused item of some pool |
| Prompts.Record | server/llm/prompts.py:84-88 | a truthy draw adds its label line, its used item and its newly-used entry; nothing otherwise |
| Prompts.FillSlot | server/llm/prompts.py:64-90 | one slot keeps the bookkeeping and adds at most one element |
| Prompts.FillCategory | server/llm/prompts.py:64-90 | the slots of one category keep the bookkeeping |
| Prompts.FillAll | server/llm/prompts.py:59-91 | the whole structure: the chosen elements are drawn from their pools, unused before, pairwise distinct, one label line each, at most one per slot |
| Prompts.SelectFocusElements | server/llm/prompts.py:42-95 | `used_story_elements` grows by exactly the chosen elements, which were unused and are distinct, and the text is their label lines |
| Prompts.SceneFocus | server/llm/prompts.py:141-144 | outside the early turns or without story data nothing is chosen or used up; otherwise as `SelectFocusElements` |
| ClientModel.ScreenName | client/model.py:27-30 | the screen's class name, never empty |
| ClientModel.Bounded | client/model.py:35-36 | `deque(messages, maxlen=c)`: the last `min(len, c)` messages in their order |
| ClientModel.BoundedIdempotent | client/model.py:35-36 | bounding twice by the same capacity changes nothing more |
| ClientModel.BoundedCompose | client/model.py:35-36 | bounding by a larger and then a smaller capacity equals bounding by the smaller one |
| ClientModel.ClientDataModel.constructor | client/model.py:15-25 | the login screen, disconnected, no user, empty lists and an empty lobby buffer of capacity 100 |
| ClientModel.ClientDataModel.SetLobbyMessageCapacity | client/model.py:32-36 | a non-positive or unchanged capacity changes nothing; otherwise the capacity is the new one and the buffer holds the newest old messages in order; no other field changes |

## Left out

- Concurrency: the trio locks, the nursery and cancellation are not modelled. Every `GameState` and `GameEngine` method runs atomically, and a dispatched turn is a `Dispatched` entry in the ghost log.
- The network is not modelled: broadcasts, direct sends and the ACTION and waiting broadcasts (engine.py:47-48, 54-55, 126-127, 168, 181-187). Debug files and logging are not modelled either.
- The language model is not modelled. Its narration is an arbitrary text and its delta an optional `StateChanges`. An exception from the language model is modelled as a blank narration or a missing delta. The `finally` block (`FinishTurn`) runs in every case.
- `get_full_config` (state.py:317-325) is called in the turn only to feed the prompt, so it is not modelled.
- The prompt text is not modelled: the JSON layout, section order, headings, the merge-conflict prose and `construct_state_update_prompt` (prompts.py:189-237). Only the deterministic parts listed in the table are modelled, and `ProcessTurn` does not call them. The growth of `used_story_elements` is stated only by `Prompts.SceneFocus`.
- The `parent_location` and `sub_locations` fields that the prompt code reads (prompts.py:108, 197) are not modelled, because `Location` defines neither.
- `Prompts.DrawSlot`: the weighted `random.choices` and `random.choice` draws are over-approximated. The fear kind and the item are oracle indices taken modulo the list length. The fallback order is any order of the fear kinds. Weights change only whether the weighted draw can raise.
- `Prompts.SceneFocus`: a location present in the story data counts as having story data even when its entry is an empty dict, which Python treats as false.
- Common.Strip: its own contract gives the length, the non-blank ends and when the result is empty. That the result is the slice between the blank ends is `Common.StripIsSlice`, a lemma of its own, so that the proofs of the many callers of `Strip` do not carry the existential.
- World.GameState.ApplyConnectionUpdate and World.GameState.ApplyTurnChanges follow the corrected screen, so the partial application that the bug at state.py:158 causes is not modelled. As written, the `TypeError` leaves the location updates and the earlier connection updates applied and loses the later connection updates, the flag merge and the player updates. engine.py:212-214 catches it, so no group re-check runs.
- World.GameState.ApplyTurnChanges and World.GameState.ApplyPlayerUpdates do not state which locations' players, pending actions and history the player updates change. `World.GameState.ApplyPlayerUpdate` states it for one update: only the location the player leaves and the one it enters. `World.GameState.ApplyWorldChanges` states that the world part changes none of them.
- `World.GameState.ApplyLocationUpdates` does not promise that the locations it creates start blank. `ApplyLocationUpdate` states this for one update.
- `Engine.GameEngine.StartGame` requires `OnlyAtStart()` when the phase is the lobby: every player who names a location then names the start room. The source does not guard this, but after `reset_to_lobby` no player names a location, so this is the state in which the lobby is left. Outside the lobby it requires only a valid state.
- The getters `get_player`, `get_all_players`, `get_connected_usernames` and `is_game_active` are read directly as fields.
- `set_fear_weights`, `set_game_variable` and the admin console are not modelled.
- `Player.status_effects` and `StatusEffect` are not defined in `player.py`. Their shape is taken from how `engine.py` uses them.
- `client/states.py` and the UI that appends to the client model's lists are not modelled, and neither are the keyboard and scroll handling.
- `StateChanges` is the already-parsed delta. The JSON parse and fields present with the wrong type are not modelled, except that `status_update` applies only when it is a list.

## Findings

| source | as written | input that shows it | evidently intended | confidence | as-written member | corrected member |
|---|---|---|---|---|---|---|
| server/game/state.py:158 | `all([action, isinstance(locs, list), len(locs) == 2])` builds the whole list before `all` runs, so `len(locs)` is evaluated even when `locs` is missing | a connection update `{"action": "CREATE"}` without `locations`: `len(None)` raises `TypeError`, which aborts `apply_turn_changes` part-way: the location updates and the earlier connection updates stay applied, the rest of the delta is lost, and engine.py:212-214 catches the error | skip the incomplete update and go on | not executed | Changes.ScreenConnectionAsWritten, Changes.MissingLocationsRaise | Changes.ScreenConnection, Changes.ScreensAgree |
| server/llm/prompts.py:131 | `conversation_history[-max_history_char_length:]` with a limit of 0 is `h[-0:]`, which is the whole history | `max_history_char_length = 0` (settable through `set_game_variable`) and the history `"ab\ncd"`: the result is the marker plus `"cd"`, not the marker alone | keep at most `max` characters, so none for 0 | not executed | Prompts.TrimHistoryAsWritten, Prompts.TrimAsWrittenZeroKeepsAll | Prompts.TrimHistory, Prompts.TrimHistoryBounds |
