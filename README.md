# MyBot tick policy (Lia game bot), modelled in Dafny

This project models the per-tick policy of the `tbdbesteu` Lia bot
(`MyBot.java`). On every tick the bot receives a snapshot of its own units
and issues commands through the game API. The policy does the following:

- It spawns a worker or a warrior, depending on the worker share and the resources.
- It drops guards that are no longer alive.
- For each unit in snapshot order:
  - a worker flees, collects or wanders;
  - a warrior that sees opponents picks a target, preferring one already
    claimed this tick, and then turns, taunts and fires with a crude
    friendly-fire check;
  - a warrior that sees no opponent may become one of at most two guards.
    A guard holds a corner; any other such warrior follows a worker.
- Finally it records the unit's snapshot in a health memory. The next tick
  uses that memory to detect damage.

The model is laid out as follows:

- `LiaApi`: the game's data (unit snapshots, opponents and resources in
  view), the commands the API accepts, and two parameters:
  - `Config` stands for the game constants: prices, map size, spawn point
    and the obstacle grid;
  - `Geometry` stands for the two `MathUtil` functions: the angle between
    a unit's facing and a point, and the distance.
- `UnitLists`: the id-keyed list edits the bot performs, written as
  sequence functions, with what they keep and drop.
- `Economy`: the spawn rule.
- `Targeting`: target choice and the "is a worker being looked at" test.
- `Actions`: the worker action, the warrior action, the friendly-fire
  loop, and the guard and follow moves.
- `LiaBot`: the class `MyBot`. Its two list fields are updated in place by
  its methods, and `Update` is the tick itself.

The commands of a tick are returned as a sequence, in the order the API
calls are made. The tick is specified by `TickCommands`: the spawn
decision's command, then each unit's `UnitCommands` in snapshot order. Each
unit's commands are computed from three things:

- the memory as recorded so far in the tick (`Remembered`);
- the guard register as grown so far (`GuardsAfter`);
- the claims made so far (`ClaimsAfter`).

Some of the code's behaviour is easy to misread. The model follows the code:

- Health memory entries of units that have disappeared are never purged.
  `Update` proves that an id missing from the snapshot keeps its old entries.
- A warrior follows the LAST worker in the snapshot that is closer than
  9999, not the nearest one. The bound of 9999 is never lowered.
- The friendly-fire verdict is decided by the last other unit in the
  snapshot alone. Each other unit overwrites the flag.
- A follower aims at the follow point, three cells from the worker on each
  axis. It goes there only when the obstacle grid marks that cell as an
  obstacle, and goes to the spawn point when the cell is free.
- When a claimed opponent is in view, `DetermineOpponent` returns the
  claimed entry, not the unit's own view of that opponent.

## Model

| member | source | states |
|---|---|---|
| `Economy.CountWorkers` | lia-sdk-windows/tbdbesteu/src/MyBot.java:24-29 | the counting loop returns the number of workers in the snapshot |
| `Economy.WorkerShareLowIff` | lia-sdk-windows/tbdbesteu/src/MyBot.java:31 | the float share test `workers / (float) total < 0.5` holds iff fewer than half the units are workers, and fails when there are no units (NaN) |
| `Economy.SpawnDecision` | lia-sdk-windows/tbdbesteu/src/MyBot.java:31-37 | a worker is spawned iff the worker share is low and a worker is affordable; a warrior iff the share is not low and a warrior is affordable; nothing otherwise |
| `Economy.SpawnCommands` | lia-sdk-windows/tbdbesteu/src/MyBot.java:31-37 | at most one spawn call is made, and it is `Spawn(t)` exactly when the decision is `t` |
| `Economy.SpawnRule` | lia-sdk-windows/tbdbesteu/src/MyBot.java:24-37 | the spawn rule in integer terms on the snapshot; with no units a warrior is spawned iff affordable; at most one spawn |
| `UnitLists.FindById` | lia-sdk-windows/tbdbesteu/src/MyBot.java:158 | `filter(id).findFirst()` finds an entry iff the id is stored, and the entry has that id |
| `UnitLists.DropIdsMembers` | lia-sdk-windows/tbdbesteu/src/MyBot.java:141 | `removeIf` on ids keeps exactly the entries whose id is not removed |
| `UnitLists.KeepIdsMembers` | lia-sdk-windows/tbdbesteu/src/MyBot.java:129-143 | selecting by ids keeps exactly the entries whose id is listed |
| `UnitLists.DropCollected` | lia-sdk-windows/tbdbesteu/src/MyBot.java:129-143 | collecting the entries whose id is missing and then removing every collected id leaves exactly the entries whose id is present |
| `UnitLists.KeepIdsSubsequence` | lia-sdk-windows/tbdbesteu/src/MyBot.java:141 | removal keeps the remaining entries in their original order |
| `UnitLists.UniqueDrop` | lia-sdk-windows/tbdbesteu/src/MyBot.java:174 | removal preserves "no id twice" |
| `UnitLists.UniqueAppend` | lia-sdk-windows/tbdbesteu/src/MyBot.java:150 | appending an entry whose id is absent preserves "no id twice" |
| `UnitLists.FindByIdUnique` | lia-sdk-windows/tbdbesteu/src/MyBot.java:158-161 | in a list without duplicate ids, the first entry found for an id is the only entry with that id |
| `UnitLists.RecordEntries` | lia-sdk-windows/tbdbesteu/src/MyBot.java:171-177 | after remove-then-append, the unit is the single entry for its id and every other id's entries are unchanged |
| `LiaBot.MyBot.constructor` | lia-sdk-windows/tbdbesteu/src/MyBot.java:14-15 | both lists start empty |
| `LiaBot.MyBot.HealthIsLower` | lia-sdk-windows/tbdbesteu/src/MyBot.java:154-169 | the health dropped iff a stored entry for the id has a higher health; an unknown id never counts as damaged; "Health is h" is said exactly then |
| `LiaBot.MyBot.UpdatePreviousUnit` | lia-sdk-windows/tbdbesteu/src/MyBot.java:171-177 | the memory becomes the old memory without the unit's id, plus the unit; the unit is the one entry for its id and other ids are untouched; no id is stored twice |
| `LiaBot.MyBot.AssignGuardBot` | lia-sdk-windows/tbdbesteu/src/MyBot.java:145-152 | the register becomes `WithGuard` of the old one: the unit is appended iff its id is not yet a guard and fewer than two guards exist; otherwise nothing changes |
| `LiaBot.MyBot.RemoveDeadGuardBots` | lia-sdk-windows/tbdbesteu/src/MyBot.java:129-143 | the two loops leave exactly the old guards whose id is in the snapshot, in order, still at most two and without duplicates |
| `LiaBot.CollectDeadGuards` | lia-sdk-windows/tbdbesteu/src/MyBot.java:130-138 | the first loop collects exactly the guards whose id is missing from the snapshot, in register order |
| `LiaBot.MyBot.RemoveCollectedGuards` | lia-sdk-windows/tbdbesteu/src/MyBot.java:140-142 | the second loop removes from the register every guard whose id was collected, and nothing else |
| `LiaBot.LiveGuardsKept` | lia-sdk-windows/tbdbesteu/src/MyBot.java:129-143 | after the removal every guard is alive, every live guard is kept, and the order is kept |
| `LiaBot.MyBot.MoveWarrior` | lia-sdk-windows/tbdbesteu/src/MyBot.java:71-127 | a guard makes the guard move; any other warrior follows the worker chosen by the follow loop, or wanders when there is none |
| `LiaBot.MyBot.ActUnit` | lia-sdk-windows/tbdbesteu/src/MyBot.java:43-65 | the unit issues exactly `UnitCommands` for its role, health check, the guards and the claims before it; only a warrior without opponents in view is offered a guard slot; only a warrior with opponents in view appends the opponent it settles on to the claims |
| `LiaBot.GuardDuty` | lia-sdk-windows/tbdbesteu/src/MyBot.java:145-152 | after AssignGuardBot the unit is a guard iff it already was one or fewer than two guards existed |
| `LiaBot.GuardsAfterSpec` | lia-sdk-windows/tbdbesteu/src/MyBot.java:39-65 | during a tick the guard register only grows at its end, never past two, and only with warriors of the snapshot that saw no opponent |
| `LiaBot.UnitCommands` | lia-sdk-windows/tbdbesteu/src/MyBot.java:43-65 | the commands of one unit by role, all addressed to that unit |
| `LiaBot.UnitCommandsByRole` | lia-sdk-windows/tbdbesteu/src/MyBot.java:47-64 | a damaged worker says "Health is h", says "run away" and flees home with the flee flag; a damaged warrior in view of opponents turns right and does not fire; a warrior without opponents in view makes the guard move iff it was a guard or a slot was free, and follows a worker otherwise |
| `LiaBot.TickStep` | lia-sdk-windows/tbdbesteu/src/MyBot.java:42-68 | processing unit i extends the tick's commands by that unit's commands, and its guards and claims by that unit's step |
| `LiaBot.MyBot.ProcessUnit` | lia-sdk-windows/tbdbesteu/src/MyBot.java:42-68 | one round of the loop: the unit acts and its snapshot is recorded; the tick's commands, guards, claims and memory advance by that unit's step, and the commands all address the unit |
| `LiaBot.MyBot.RunUnits` | lia-sdk-windows/tbdbesteu/src/MyBot.java:42-68 | the loop over the snapshot issues exactly `TickCommands`, none of them a spawn and all addressed to units of the snapshot; the guards grow by the idle warriors; the memory ends as `Remembered` |
| `LiaBot.MemoryStep` | lia-sdk-windows/tbdbesteu/src/MyBot.java:42-68 | recording unit i keeps every id's memory equal to the latest snapshot seen so far, or to the old entries when the id has not been seen |
| `LiaBot.MyBot.Update` | lia-sdk-windows/tbdbesteu/src/MyBot.java:23-69 | the tick issues the spawn decision's one spawn or none, followed by `TickCommands`: each unit's commands in snapshot order; so only the first command can be a spawn, and every later one is addressed to a unit of the snapshot. The guards become the live old guards grown by the tick's idle warriors, so every guard is alive and every live guard is kept. The memory holds the latest snapshot of every unit seen and the unpurged old entries of every unit not seen; no id is stored twice |
| `Targeting.FindClaimed` | lia-sdk-windows/tbdbesteu/src/MyBot.java:231 | a claim is found iff the id has been claimed, and it is a claimed entry with that id |
| `Targeting.FirstClaimedInViewSpec` | lia-sdk-windows/tbdbesteu/src/MyBot.java:228-237 | the search finds a claim iff some opponent in view is claimed, and then finds the claim of the first claimed id in view order |
| `Targeting.DetermineOpponent` | lia-sdk-windows/tbdbesteu/src/MyBot.java:224-241 | the loop returns `ChosenOpponent`: the claimed entry of the first claimed id in view, or else the first opponent in view; the id is always one in view; when any opponent in view is claimed, a claimed opponent is returned |
| `Targeting.TargetStability` | lia-sdk-windows/tbdbesteu/src/MyBot.java:56-57 | when a first warrior settles on the head of its view and a second warrior also sees that opponent, the second warrior settles on the same claimed opponent |
| `Targeting.OpponentIsLooking` | lia-sdk-windows/tbdbesteu/src/MyBot.java:207-222 | true iff some opponent in view is a warrior facing the unit to within 15 degrees |
| `Actions.HealthCallout` | lia-sdk-windows/tbdbesteu/src/MyBot.java:163-165 | at most one command: exactly one, "Health is h" with the unit's current health, when the health dropped; none otherwise |
| `Actions.WorkerAction` | lia-sdk-windows/tbdbesteu/src/MyBot.java:179-199 | it flees iff threatened or damaged, saying "run away" and heading to the spawn point with the flee flag; otherwise it goes to the first resource in view iff one is seen; otherwise it wanders iff it has no path; otherwise it does nothing. An unthreatened, undamaged worker issues at most one command |
| `Actions.WarriorAction` | lia-sdk-windows/tbdbesteu/src/MyBot.java:243-275 | it stops first; it turns right iff damaged, or the aim is below -5 and the target does not face it; slow right, left and slow left under their conditions; it fires iff undamaged, aimed within 5 degrees, ready and clear; it never both fires and turns. A damaged warrior issues exactly stop, "Health is h", turn right. A firing warrior issues exactly stop, the taunt, shoot. Otherwise it issues the stop and exactly the rotation its conditions select, or nothing more when aimed |
| `Actions.LineOfFireClear` | lia-sdk-windows/tbdbesteu/src/MyBot.java:262-268 | the friendly-fire loop's verdict is the angle test on the last other unit, or true when there is none |
| `Actions.LastOtherSpec` | lia-sdk-windows/tbdbesteu/src/MyBot.java:262-268 | there is no other unit iff every unit has the warrior's id; otherwise the deciding unit is another unit after which only the warrior itself follows |
| `Actions.FriendlyFireLastDecides` | lia-sdk-windows/tbdbesteu/src/MyBot.java:262-268 | appending another unit makes its angle alone decide the verdict, whatever units stand before it |
| `Actions.PickWorkerToFollow` | lia-sdk-windows/tbdbesteu/src/MyBot.java:91-101 | the follow loop returns the last worker closer than 9999, or none |
| `Actions.LastFollowableSpec` | lia-sdk-windows/tbdbesteu/src/MyBot.java:91-101 | none is found iff no worker is closer than 9999; otherwise the result is such a worker, and no later worker qualifies |
| `Actions.FollowPicksLastNotNearest` | lia-sdk-windows/tbdbesteu/src/MyBot.java:91-101 | of two qualifying workers the later one is followed even when the earlier one is nearer |
| `Actions.GuardMove` | lia-sdk-windows/tbdbesteu/src/MyBot.java:72-89 | a guard navigates iff it is more than 6 from its corner and standing still, to a cell diagonally `rngPos` from the home corner, which lies on the map when both sides are at least 5. Otherwise it turns right iff it is standing still and looks more than 10 degrees off the watched corner. Otherwise it stops and sets speed none iff it looks within 10 degrees. It does nothing in the remaining cases: exactly 10 degrees off, or moving while looking away. The distance is measured to (0, 0) for a bottom spawn and to the top-right cell otherwise; the watched corner is the opposite one |
| `Actions.FollowMove` | lia-sdk-windows/tbdbesteu/src/MyBot.java:103-125 | it wanders iff there is no worker; otherwise a single calm navigation, to the point 3 cells from the worker on each axis when the grid marks that cell as an obstacle, and to the spawn point when the cell is free |

## Left out

- `main` and the networking client (lines 306-308) connect to the game
  server. They are I/O.
- `MathUtil.angleBetweenUnitAndPoint` and `MathUtil.distance` are given as
  the functions of a `Geometry` value. Their float trigonometry is not
  modelled. `MathUtil.java` is not part of this model.
- `Constants.java` is not part of this model. The prices, map size, spawn
  point and obstacle grid are fields of a `Config` value. The grid lookup
  `MAP[x][y]` is a total predicate on the truncated coordinates, so an
  out-of-range index (an exception in Java) is not modelled.
- The random wander loops (lines 114-124 and 187-197) become one abstract
  `Wander(id)` command. They draw `Math.random()` cells until a free one
  turns up, and the model does not say which cell. On a map with no free
  cell the source loop never ends, while `Wander` always succeeds.
- `LiaBot.MyBot.Update`: each `new Random().nextInt(5)` of a guard move is
  the caller-supplied `cornerOffsets[i]` in 0..4. The model does not
  capture that the draw is fresh and uniform.
- `GetSomethingToSay` (lines 277-303) is the abstract `Taunt` phrase. Its
  `case 4` is unreachable because `nextInt(4)` is below 4. The
  "Run awaaayyy" and "Health is h" texts are the phrases `RunAway` and
  `HealthReport(h)`.
- Floats are exact reals. `numberOfWorkers / (float) length < 0.5f` agrees
  with the exact comparison for unit counts below 2^24.
- `GetOpponentAngle` (lines 201-205) builds a throw-away `UnitData` from the
  opponent. It is modelled as the geometry angle from the opponent's pose.
- Unit fields that the policy never reads (rotation, bullets in view,
  time to next shot) are not part of `UnitData`.
- `Actions.WarriorAction`: the friendly-fire loop runs only when the
  warrior is aimed and ready. The model takes its verdict as an input, which
  is equivalent because the loop has no effect.
- Aim convergence over several ticks, and any other property that needs the
  game's physics, is not modelled.
