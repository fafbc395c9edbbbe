# PV-StarAPI core in Dafny

A verified model of the behavioural core of PV-StarAPI, the plugin API of the
PV-Star arena minigame framework for Bukkit servers:

- **Teams** (`teams.dfy`): the team enum with its wool-or-wood team block, and
  `ArenaTeam.TeamDistributor`, which hands out teams least-used first and takes
  uses back with `recycle`. The priority queue is a sequence of (team, uses)
  slots in configured order; `next` takes any slot with a minimal count.
- **Scheduling** (`scheduling.dfy`): `ArenaScheduler`. One-shot tasks are
  scheduled unwrapped. A repeating task is wrapped in a session check that
  captures the arena's start-time object. On each tick the check cancels the
  task when the game has stopped or a new session started. The start time is
  a class, so the check compares identities, as the Java `!=` does. The
  platform scheduler is a `ScheduledTask` handle with a status; tick-by-tick
  behaviour is a pure `TickStep`/`ReplayTicks` specification.
- **Batch scheduling** (`batch.dfy`): `ArenaBatchScheduler`, a class with a
  sequence of task handles that every schedule call appends to and
  `cancelAll` drains in a loop.
- **Region** (`region.dfy`): `ArenaRegion`'s enter and leave gates and
  handlers. Each handler is a function from what it reads to the list of
  effects it causes (events, the deferred re-check, join, teleport, remove,
  set winner, respawn). The player-watcher flag is a class field set by the
  arena start and end handlers.
- **Spawns** (`spawns.dfy`, `spawn_filter.dfy`): `Spawnpoint` as a value with
  its lower-cased search name, the spawner guard of `spawn`, the three
  `filter` overloads (one loop method proved against a filtering function)
  and the `getRandomSpawn` overloads, with the random number as a parameter.
- **Modules** (`modules.dfy`): `PVStarModule`'s lifecycle flags
  (`preEnable`, `enable`, `dispose`), the hooks they call, and the data-node
  cache keyed by the lower-cased path.
- **Leave event** (`leave_event.dfy`): `PlayerLeaveArenaEvent` and its
  restore location, which is hidden when the reason is FORWARDING.
- Support: `wrappers.dfy` (Option, Result, Outcome), `text.dfy` (the
  lower-casing used for keys and search names), `platform.dfy` (an opaque
  location handle).

Java `null` returns become `None`; exceptions thrown for a refused call
become `Fail`/`Failure`. `PreCon.notNull` checks are carried by Dafny's
non-null types. `PreCon.positiveNumber` (zero allowed), `greaterThanZero`
and `notNullOrEmpty` become preconditions.

Two behaviours of the code worth knowing:

- `recycle` (`ArenaTeam.java:141-144`) has no lower bound, so
  `Teams.RecycleGoesBelowZero` shows a count of -1, and
  `Teams.RecycleCanUnbalance` shows that recycling breaks the balance that
  `next` alone keeps.
- The doc comments of `runTaskLater` (`ArenaScheduler.java:52-53`,
  `ArenaBatchScheduler.java:52-53`) say a one-shot task is cancelled when the
  arena ends. The code passes it through unwrapped, so nothing cancels it.
  `Scheduling.OneShotRunsOnceRegardless` proves it runs whatever the game
  state.

## Model

| member | source | states |
|---|---|---|
| Teams.TeamBlock | src/com/jcwhatever/bukkit/pvs/api/arena/ArenaTeam.java:65-70 | the block is wool exactly when the team id is in 0..15, and then its colour is the team id; otherwise wood |
| Teams.TeamBlockIdentifiesTeam | src/com/jcwhatever/bukkit/pvs/api/arena/ArenaTeam.java:18-33 | only NONE (id -1) gets wood, and two different teams never share a block |
| Teams.LeastUsed | src/com/jcwhatever/bukkit/pvs/api/arena/ArenaTeam.java:200-202 | a non-empty pool has a slot whose count is no greater than any other slot's, the head of the queue under `compareTo` |
| Teams.ZeroSlots | src/com/jcwhatever/bukkit/pvs/api/arena/ArenaTeam.java:163-170 | a fresh pool has one slot per configured team, in order, each with zero uses |
| Teams.FirstSlotOf | src/com/jcwhatever/bukkit/pvs/api/arena/ArenaTeam.java:134-148 | the first slot of the team in configured order, or -1 when no slot holds it; this is the slot the iterator reaches first whenever each team is configured once |
| Teams.Bumped | src/com/jcwhatever/bukkit/pvs/api/arena/ArenaTeam.java:117-121 | the pool after `next` takes slot `i`: that slot has one more use, every other slot and every slot's team are unchanged |
| Teams.Recycled | src/com/jcwhatever/bukkit/pvs/api/arena/ArenaTeam.java:134-152 | the pool after `recycle(t)`: slots of other teams are unchanged, no slot's team changes, and no count drops by more than one |
| Teams.RecycleLowersFirstMatch | src/com/jcwhatever/bukkit/pvs/api/arena/ArenaTeam.java:138-152 | with a slot for the team present, recycle lowers exactly that first slot by one and leaves every other slot and the pool size alone |
| Teams.RecycleAbsentIsNoOp | src/com/jcwhatever/bukkit/pvs/api/arena/ArenaTeam.java:147-153 | recycling a team with no slot leaves the pool unchanged |
| Teams.RecycleGoesBelowZero | src/com/jcwhatever/bukkit/pvs/api/arena/ArenaTeam.java:141-144 | recycling an unused team gives it -1 uses: there is no floor |
| Teams.RecycleCanUnbalance | src/com/jcwhatever/bukkit/pvs/api/arena/ArenaTeam.java:141-144 | two recycles of one team after a reset leave counts two apart |
| Teams.NextRaisesTotalByOne | src/com/jcwhatever/bukkit/pvs/api/arena/ArenaTeam.java:117-121 | `next` hands out exactly one more use in total |
| Teams.RecycleLowersTotal | src/com/jcwhatever/bukkit/pvs/api/arena/ArenaTeam.java:132-153 | recycle takes back exactly one use in total when the team has a slot, and none otherwise |
| Teams.NextKeepsBalance | src/com/jcwhatever/bukkit/pvs/api/arena/ArenaTeam.java:115-124 | bumping a least-used slot keeps max minus min at most one |
| Teams.NextOnlyRunIsBalanced | src/com/jcwhatever/bukkit/pvs/api/arena/ArenaTeam.java:200-202 | from a reset, any run of `next` calls keeps every count non-negative and max minus min at most one |
| Teams.TeamDistributor.constructor | src/com/jcwhatever/bukkit/pvs/api/arena/ArenaTeam.java:96-110 | the configured teams are kept and the pool is one zero slot per team, with no recycle since |
| Teams.TeamDistributor.LoadTeams | src/com/jcwhatever/bukkit/pvs/api/arena/ArenaTeam.java:163-170 | the loop rebuilds the pool as one zero slot per cached team, cache unchanged |
| Teams.TeamDistributor.Reset | src/com/jcwhatever/bukkit/pvs/api/arena/ArenaTeam.java:158-160 | all prior counts are discarded, the pool is freshly loaded and no recycle has happened since |
| Teams.TeamDistributor.Next | src/com/jcwhatever/bukkit/pvs/api/arena/ArenaTeam.java:115-124 | on a non-empty pool, returns the team of a least-used slot and raises exactly that slot by one; with no recycle since the last reset, the pool stays balanced and non-negative |
| Teams.TeamDistributor.Recycle | src/com/jcwhatever/bukkit/pvs/api/arena/ArenaTeam.java:132-153 | the loop finds the first slot of the team (in configured order) and lowers it by one; otherwise nothing changes |
| Scheduling.WrapRunnable | src/com/jcwhatever/bukkit/pvs/api/utils/ArenaScheduler.java:97-104 | one-shot runnables are passed through; repeating ones are guarded by the start time captured at wrap time |
| Scheduling.GuardVerdict | src/com/jcwhatever/bukkit/pvs/api/utils/ArenaScheduler.java:109-119 | with a task attached, cancel when the game is stopped or the start time is another object, else run; with none attached, always run |
| Scheduling.TickStep | src/com/jcwhatever/bukkit/pvs/api/utils/ArenaScheduler.java:107-120 | a stopped task never runs; a guarded task runs only in its own running session; an unwrapped pending task always runs; only repeating tasks stay pending |
| Scheduling.StoppedTaskNeverRuns | src/com/jcwhatever/bukkit/pvs/api/utils/ArenaScheduler.java:114-115 | a cancelled or finished task runs on no later tick |
| Scheduling.StaleSessionStopsForever | src/com/jcwhatever/bukkit/pvs/api/utils/ArenaScheduler.java:111-116 | once a tick sees the game stopped or a new session, the repeating task runs no more; a pending one ends cancelled |
| Scheduling.SameSessionRunsEveryTick | src/com/jcwhatever/bukkit/pvs/api/utils/ArenaScheduler.java:109-119 | while its session keeps running, a repeating task runs on every tick and stays scheduled |
| Scheduling.OneShotRunsOnceRegardless | src/com/jcwhatever/bukkit/pvs/api/utils/ArenaScheduler.java:97-100 | a one-shot task runs exactly once whatever the game state, then is complete |
| Scheduling.ScheduledTask.Cancel | src/com/jcwhatever/bukkit/pvs/api/utils/ArenaScheduler.java:92 | cancelling a pending task leaves it cancelled; a finished or cancelled task keeps its status |
| Scheduling.RunTaskLater | src/com/jcwhatever/bukkit/pvs/api/utils/ArenaScheduler.java:59-61 | a fresh pending task with the delay and the caller's runnable, unwrapped |
| Scheduling.RunTaskSoon | src/com/jcwhatever/bukkit/pvs/api/utils/ArenaScheduler.java:70-72 | a fresh pending task for the first available tick, unwrapped |
| Scheduling.RunTaskRepeat | src/com/jcwhatever/bukkit/pvs/api/utils/ArenaScheduler.java:83-95 | delays must be at least zero; the task is session-guarded by the current start time and is already cancelled when the game is not running |
| Scheduling.Tick | src/com/jcwhatever/bukkit/pvs/api/utils/ArenaScheduler.java:107-120 | one tick of a task changes its status and runs its runnable exactly as `TickStep` says |
| Scheduling.RestartCancelsEarlierSession | src/com/jcwhatever/bukkit/pvs/api/utils/ArenaScheduler.java:102-116 | a repeating task scheduled in one session is cancelled without running on its first tick after the game ends and restarts |
| BatchScheduling.ArenaBatchScheduler.constructor | src/com/jcwhatever/bukkit/pvs/api/utils/ArenaBatchScheduler.java:41-43 | the batch is bound to its arena and holds no tasks |
| BatchScheduling.ArenaBatchScheduler.CancelAll | src/com/jcwhatever/bukkit/pvs/api/utils/ArenaBatchScheduler.java:45-49 | the list ends empty; every held task is cancelled exactly once, in insertion order, and no other task is touched |
| BatchScheduling.ArenaBatchScheduler.RunTaskLater | src/com/jcwhatever/bukkit/pvs/api/utils/ArenaBatchScheduler.java:59-65 | delegates with the batch's arena and appends exactly the returned task |
| BatchScheduling.ArenaBatchScheduler.RunTaskSoon | src/com/jcwhatever/bukkit/pvs/api/utils/ArenaBatchScheduler.java:74-80 | delegates with the batch's arena and appends exactly the returned task |
| BatchScheduling.ArenaBatchScheduler.RunTaskRepeat | src/com/jcwhatever/bukkit/pvs/api/utils/ArenaBatchScheduler.java:90-97 | delegates with the batch's arena, inheriting its session guard and immediate cancel, and appends exactly the returned task |
| BatchScheduling.CancelAllTwice | src/com/jcwhatever/bukkit/pvs/api/utils/ArenaBatchScheduler.java:45-49 | a second `cancelAll` cancels nothing more and the list stays empty |
| Region.CanDoPlayerEnter | src/com/jcwhatever/bukkit/pvs/api/arena/ArenaRegion.java:63-68 | the gate is closed when outsiders are not policed, the game is stopped, or the player is offline or dead (the opening direction is in `Region.EnterCrossingEffects`) |
| Region.OnPlayerEnter | src/com/jcwhatever/bukkit/pvs/api/arena/ArenaRegion.java:76-86 | nothing for a player of this arena; otherwise the enter event first and a re-check 5 ticks later, and nothing else |
| Region.EnterCrossingEffects | src/com/jcwhatever/bukkit/pvs/api/arena/ArenaRegion.java:63-86 | a crossing in acts exactly when outsiders are policed, the game runs, the player is online, alive and not in this arena; then one event and one re-check five ticks later |
| Region.Recheck | src/com/jcwhatever/bukkit/pvs/api/arena/ArenaRegion.java:89-111 | nothing for a player no longer inside or under NONE; at most two effects, only a join, a teleport or an error message |
| Region.RecheckFollowsLivePolicy | src/com/jcwhatever/bukkit/pvs/api/arena/ArenaRegion.java:91-111 | the re-check acts only on a player still inside; it applies the outsiders action read when it fires: NONE nothing, JOIN a join, KICK a teleport to the remove location then an error message |
| Region.CanDoPlayerLeave | src/com/jcwhatever/bukkit/pvs/api/arena/ArenaRegion.java:124-127 | the gate is closed when the game is stopped or out-of-bounds is not policed (the opening direction is in `Region.LeaveCrossingEffects`) |
| Region.LeavePolicy | src/com/jcwhatever/bukkit/pvs/api/arena/ArenaRegion.java:145-168 | at most two effects, never a region event, and once the game is over neither a winner nor a LOSE removal |
| Region.OnPlayerLeave | src/com/jcwhatever/bukkit/pvs/api/arena/ArenaRegion.java:135-171 | nothing for a player of another arena; otherwise the leave event first and only once; a player no longer in this arena or not a game player gets only the event |
| Region.LeaveCrossingEffects | src/com/jcwhatever/bukkit/pvs/api/arena/ArenaRegion.java:124-141 | a crossing out acts exactly when the game runs, out-of-bounds is policed and the player is in this arena; the leave event comes first, once |
| Region.LeavePolicyOnlyForGamePlayers | src/com/jcwhatever/bukkit/pvs/api/arena/ArenaRegion.java:137-143 | after the event, only a player still in this arena as a game player gets the policy; others get the event alone |
| Region.LeavePolicyOutcomes | src/com/jcwhatever/bukkit/pvs/api/arena/ArenaRegion.java:145-168 | KICK removes and messages, WIN sets the winner and LOSE removes only while the game is not over, RESPAWN respawns, NONE does nothing |
| Region.NoWinnerOnceOver | src/com/jcwhatever/bukkit/pvs/api/arena/ArenaRegion.java:152-155 | once the game is over, no leaver is made the winner |
| Region.WinRaceSetsOneWinner | src/com/jcwhatever/bukkit/pvs/api/arena/ArenaRegion.java:152-155 | when several game players leave under WIN, exactly one winner is set if the game was not over, none otherwise, assuming `setWinner` ends the game (see "## Left out") |
| Region.WatchingOnlyDuringPolicedSession | src/com/jcwhatever/bukkit/pvs/api/arena/ArenaRegion.java:221-235 | over alternating starts and ends, the region watches players exactly while a session with a policed out-of-bounds action runs |
| Region.ArenaRegion.constructor | src/com/jcwhatever/bukkit/pvs/api/arena/ArenaRegion.java:38-45 | the region starts without watching players (the base region's initial state) |
| Region.ArenaRegion.OnArenaStarted | src/com/jcwhatever/bukkit/pvs/api/arena/ArenaRegion.java:221-226 | the flag is set when the out-of-bounds action is not NONE and otherwise left as it was |
| Region.ArenaRegion.OnArenaEnded | src/com/jcwhatever/bukkit/pvs/api/arena/ArenaRegion.java:232-235 | the flag is always cleared |
| Text.ToLower | src/com/jcwhatever/bukkit/pvs/api/spawns/Spawnpoint.java:50 | the result has the input's length and no upper-case letter, each character lower-cased in place |
| Text.ToLowerIdempotent | src/com/jcwhatever/bukkit/pvs/api/modules/PVStarModule.java:193 | lower-casing a lower-cased key changes nothing |
| Text.ToLowerSameIffEqualIgnoringCase | src/com/jcwhatever/bukkit/pvs/api/modules/PVStarModule.java:193 | two strings lower-case to the same key exactly when, character by character, they are equal or the two cases of one letter |
| Spawns.NewSpawnpoint | src/com/jcwhatever/bukkit/pvs/api/spawns/Spawnpoint.java:43-52 | needs a non-empty name; keeps name, type and location, search name is the lower-cased name, team is NONE |
| Spawns.NewTeamSpawnpoint | src/com/jcwhatever/bukkit/pvs/api/spawns/Spawnpoint.java:106-117 | needs a non-empty name; keeps name, type, location and the given team, search name is the lower-cased name |
| Spawns.SearchNameIgnoresCase | src/com/jcwhatever/bukkit/pvs/api/spawns/Spawnpoint.java:50 | two spawnpoints share a search name exactly when their names are equal up to case |
| Spawns.Spawn | src/com/jcwhatever/bukkit/pvs/api/spawns/Spawnpoint.java:227-235 | needs a positive count; null exactly when the type is not a spawner, else a request to spawn that count at this point |
| SpawnFilter.Filtered | src/com/jcwhatever/bukkit/pvs/api/utils/SpawnFilter.java:43-87 | the result is no longer than the input and holds only input spawns that match |
| SpawnFilter.Filter | src/com/jcwhatever/bukkit/pvs/api/utils/SpawnFilter.java:47-55 | the loop collects exactly the filtering function's result |
| SpawnFilter.FilteredIsSubsequence | src/com/jcwhatever/bukkit/pvs/api/utils/SpawnFilter.java:47-55 | every filter result keeps input order |
| SpawnFilter.FilteredKeepsExactlyMatches | src/com/jcwhatever/bukkit/pvs/api/utils/SpawnFilter.java:49-53 | each matching spawn appears as often as in the input, a non-matching one never |
| SpawnFilter.FilteredEmptyIffNoMatch | src/com/jcwhatever/bukkit/pvs/api/utils/SpawnFilter.java:49-53 | the result is empty exactly when no input spawn matches |
| SpawnFilter.TypeAndTeamIsTypeThenTeam | src/com/jcwhatever/bukkit/pvs/api/utils/SpawnFilter.java:73-87 | filtering by type and team equals filtering by type, then by team |
| SpawnFilter.RandGet | src/com/jcwhatever/bukkit/pvs/api/utils/SpawnFilter.java:103 | the chosen spawn is an element of the list; an empty list gives null |
| SpawnFilter.GetRandomSpawnAsWritten | src/com/jcwhatever/bukkit/pvs/api/utils/SpawnFilter.java:90-104 | as written, an empty collection and any non-List collection both give null; a non-empty `List` gives one of its own elements, as the corrected version does |
| SpawnFilter.NonListSpawnsAreNeverChosen | src/com/jcwhatever/bukkit/pvs/api/utils/SpawnFilter.java:98-100 | a set of one spawnpoint gives null as written, but that spawnpoint once the elements are copied |
| SpawnFilter.GetRandomSpawn | src/com/jcwhatever/bukkit/pvs/api/utils/SpawnFilter.java:90-104 | with the elements copied: null exactly for an empty collection, else one of its spawns |
| SpawnFilter.GetRandomMatchingSpawn | src/com/jcwhatever/bukkit/pvs/api/utils/SpawnFilter.java:106-156 | null exactly when no spawn matches (an empty input included), else a matching spawn of the input |
| Modules.Step | src/com/jcwhatever/bukkit/pvs/api/modules/PVStarModule.java:111-163 | a call is refused exactly when its own flag or the disposed flag is set; otherwise it raises its own flag and no other |
| Modules.NoOrderingBetweenCalls | src/com/jcwhatever/bukkit/pvs/api/modules/PVStarModule.java:131-163 | `enable` does not need `preEnable`, and `dispose` succeeds from any state that is not disposed |
| Modules.FlagsOnlyRise | src/com/jcwhatever/bukkit/pvs/api/modules/PVStarModule.java:26-28 | over any series of calls, no flag goes back to false |
| Modules.EachHookAtMostOnce | src/com/jcwhatever/bukkit/pvs/api/modules/PVStarModule.java:123-125 | each hook is called once if its flag was raised during the calls and never otherwise |
| Modules.DisposedIsFinal | src/com/jcwhatever/bukkit/pvs/api/modules/PVStarModule.java:113-121 | after dispose every call is refused, no flag changes and no hook runs |
| Modules.PVStarModule.constructor | src/com/jcwhatever/bukkit/pvs/api/modules/PVStarModule.java:23-28 | all flags false, no hooks called, no nodes cached |
| Modules.PVStarModule.PreEnable | src/com/jcwhatever/bukkit/pvs/api/modules/PVStarModule.java:111-126 | refused with the matching error when pre-enabled or disposed; otherwise sets the flag and calls `onRegisterTypes` once |
| Modules.PVStarModule.Enable | src/com/jcwhatever/bukkit/pvs/api/modules/PVStarModule.java:131-146 | refused with the matching error when enabled or disposed; otherwise sets the flag and calls `onEnable` once |
| Modules.PVStarModule.Dispose | src/com/jcwhatever/bukkit/pvs/api/modules/PVStarModule.java:153-163 | refused only when disposed; otherwise sets the flag and calls `onDispose` once |
| Modules.PVStarModule.GetConfigNode | src/com/jcwhatever/bukkit/pvs/api/modules/PVStarModule.java:176-183 | the first call creates and loads the module's config node; later calls return that same node |
| Modules.PVStarModule.GetDataNode | src/com/jcwhatever/bukkit/pvs/api/modules/PVStarModule.java:190-206 | needs a non-empty path; a hit on the lower-cased key returns the cached node, a miss creates, loads and caches a node under the path as given |
| Modules.CaseVariantsShareNode | src/com/jcwhatever/bukkit/pvs/api/modules/PVStarModule.java:190-206 | paths equal up to case get the same node |
| LeaveEvent.Reported | src/com/jcwhatever/pvs/api/events/players/PlayerLeaveArenaEvent.java:98-109 | a getter reports null when forwarding and the stored location otherwise |
| LeaveEvent.PlayerLeaveArenaEvent.constructor | src/com/jcwhatever/pvs/api/events/players/PlayerLeaveArenaEvent.java:64-78 | reason and both restore locations are the arguments, so the current location starts equal to the initial one |
| LeaveEvent.PlayerLeaveArenaEvent.IsRestoring | src/com/jcwhatever/pvs/api/events/players/PlayerLeaveArenaEvent.java:90-92 | true exactly when the reason is not FORWARDING |
| LeaveEvent.PlayerLeaveArenaEvent.GetInitialRestoreLocation | src/com/jcwhatever/pvs/api/events/players/PlayerLeaveArenaEvent.java:98-101 | the constructor's location when restoring, null otherwise |
| LeaveEvent.PlayerLeaveArenaEvent.GetRestoreLocation | src/com/jcwhatever/pvs/api/events/players/PlayerLeaveArenaEvent.java:106-109 | the current location when restoring, null otherwise |
| LeaveEvent.PlayerLeaveArenaEvent.SetRestoreLocation | src/com/jcwhatever/pvs/api/events/players/PlayerLeaveArenaEvent.java:116-118 | only the current location changes; when restoring it is reported back as set |
| LeaveEvent.ForwardingNeverRestores | src/com/jcwhatever/pvs/api/events/players/PlayerLeaveArenaEvent.java:90-118 | a forwarded player reports no restore location, even after one is set |

## Left out

- Chat, console and broadcast messaging (`Msg`): I/O. The error messages appear only as constants inside effects.
- Interfaces with no bodies (arena player, arena settings, extension manager): they are collaborators. Their answers are parameters (running, game over, online, dead, relation, outsiders and out-of-bounds actions).
- `StatType`: floating-point formatting.
- `PlayerArenaDeathEvent` and the DTO events that only get and set fields: they have no behaviour of their own.
- Region save and restore hooks (`ArenaRegion.java:176-215`): disk I/O.
- Region geometry, `contains` and player locations: whether the player is still inside is a boolean parameter of the re-check. Teleport, join, remove, set winner, respawn and event dispatch are recorded as effects, not carried out.
- The platform scheduler: tick timing, delays and the `TaskHandler` parent handler are not simulated. A task is a handle with a status, and ticks are replayed explicitly.
- `GameManager`'s own start and end code is not part of this model. `Scheduling.GameManager` is a stand-in whose `Start` installs a fresh start-time object and whose `End` stops the game.
- Randomness: `Rand.get` is given a random number `roll` as a parameter. `Rand` is not part of this model, and its result on an empty list is taken to be null.
- Storage: `DataStorage`, `IDataNode` contents, `ModuleInfo` lookup and the `LanguageManager` are foreign. A data node records only its path and whether it was loaded.
- Module info getters (`getName`, `getVersion`, dependencies): forwards to `ModuleInfo`. The name is a constant of the module.
- Spawnpoint coordinates, world, yaw, pitch and `getDistance`: floating point. A location is an opaque handle, and `getLocation` returning the spawnpoint itself is that handle.
- `Spawnpoint.spawn(ArenaPlayer)`: a teleport.
- Team colours and display names (`getTextColor`, `getDisplay`): presentation only.
- Teams.TeamDistributor.Recycle and Teams.FirstSlotOf: for a team configured more than once, the slot lowered is the first in configured order, not the first in the Java `PriorityQueue`'s heap array, which its iterator walks. For example, after `TeamDistributor(GOLD, GOLD, RED)` and one `next`, Java lowers the unused GOLD slot while the model may lower the used one. With each team configured once the two agree.
- Teams.TeamDistributor.Next: the heap order of the Java `PriorityQueue` is not modelled, so when several slots tie for least used, any of them may be taken.
- Text.ToLower: lower-cases ASCII letters only; Java's locale-dependent Unicode lower-casing is not modelled.
- Modules.PVStarModule.GetDataNode and Modules.PVStarModule.GetConfigNode: a storage path is a sequence of segments, `["modules", name, "config"]` for the config node; how `DataPath` splits the dotted string `"modules." + name + ".config"` (or a dotted path argument) is not modelled.
- Region.LeaveAll and Region.WinRaceSetsOneWinner: they rest on three assumptions about collaborators that are not part of this model. `GameManager.setWinner` makes `isGameOver()` true. No listener of the leave event removes the player, so a player is still in the arena after the event exactly when they were before it. Each later leaver in the same tick still passes `canDoPlayerLeave`.
- Region.ArenaRegion.constructor: the player-watcher flag starts false. That is taken as the initial state of the base region class, which is not part of this model.
- Modules.PVStarModule.PreEnable: a hook that throws is not modelled; the flag is set before the hook runs, as in the source.
- LeaveEvent.LeaveReason: only FORWARDING is distinguished, since the other reason constants are not part of this model.

## Findings

| source | as written | input that shows it | evidently intended | confidence | as-written member | corrected member |
|---|---|---|---|---|---|---|
| src/com/jcwhatever/bukkit/pvs/api/utils/SpawnFilter.java:98-100 | a collection that is not a `List` is replaced by `new ArrayList<T>(spawnpoints.size())`, an empty list with that capacity, before the random choice | a `HashSet` holding one spawnpoint: the choice is made from an empty list, so no spawnpoint is returned | copy the elements (`new ArrayList<T>(spawnpoints)`) so that a non-empty collection always yields one of its spawnpoints | not executed; the empty-list result of `Rand.get` is assumed to be null | SpawnFilter.GetRandomSpawnAsWritten, SpawnFilter.NonListSpawnsAreNeverChosen | SpawnFilter.GetRandomSpawn |
