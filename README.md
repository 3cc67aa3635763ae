# Bomberjam reconciliation and episode stepping, in Dafny

This project models two pieces of the Bomberjam game (a tick-based Bomberman
arena) and proves properties of them.

- **The renderer's state reconciliation** (`BombermanRenderer`). At start-up
  it announces every player, bomb and bonus already in the state to the map
  and the HUD. On every state change it does three things:
  - in replay mode, where the state carries no add/remove notifications, it
    diffs the bombs and the bonuses against the previous snapshot it keeps;
  - it tells both consumers that the state changed, passing the previous
    snapshot;
  - it keeps a value copy of the current state as the new previous snapshot.

  The map and the HUD are modelled as two append-only logs of the calls they
  receive (`mapLog`, `hudLog`). Snapshots are maps from an id to an entity.
- **The bot environment** (`BomberjamEnv`). The constructor creates bots
  `bot-0`, `bot-1`, … and registers each one as a player. `step` works in
  three stages:
  - it builds one client message per action index, but only when that bot's
    player is alive;
  - it applies the messages to the simulation as one batch, in shuffled order;
  - it returns the sanitized state, a fixed reward vector, and whether play
    has ended.

  The simulation (`GameState`) is opaque. It is modelled as a tick, a player
  map and a pause flag, and its operations are function-valued parameters
  (`Simulation`).

Modules:
- `Types`: the entity and message shapes.
- `SnapshotDiff`: what one diff pass must emit, stated without fixing the
  order in which ids are visited, plus the lemmas about it. It has no source
  file of its own; it is the specification the renderer's loops are proved
  against.
- `Renderer`: the `BombermanRenderer` class and the `StateProvider` holding
  the live state.
- `ClientUtils`: `Shuffle`.
- `Env`: bot creation, message building and the `BomberjamEnv` class.

The model leaves the visiting order of every loop over the ids of a collection
or of a scratch set open: each loop picks its next id with `:|`. Whatever order
the source actually uses is one of the orders the model allows. So a pass is specified by the
predicate `IsReplayDiff`, not by one fixed sequence. That predicate says:
- the added changes name each id of `current − previous` exactly once, with
  its current payload;
- the removed changes name each id of `previous − current` exactly once, with
  its previous payload;
- the pass emits all added calls before all removed calls.

`ReplayDiffUnique` proves that any two runs of a pass emit the same events,
differing at most in order.

Two points about the code:
- Replay mode diffs only bombs and bonuses, not players
  (bombermanRenderer.ts lines 122-125).
- `rewards` is the literal `[0, 0, 0, 0]` whatever the number of bots
  (bomberjamEnv.ts line 54).

## Model

| member | source | states |
|---|---|---|
| `Renderer.StateProvider.constructor` | src/frontend/src/game/bombermanRenderer.ts:9-11 | The holder of the live state starts out holding the given state. |
| `Renderer.BombermanRenderer.constructor` | src/frontend/src/game/bombermanRenderer.ts:24-36 | The previous snapshot starts as the provider's current state. The scratch sets start empty. Both logs receive one start-up emission: every player, then every bomb, then every bonus of that state, each id once, announced as added with its current payload. |
| `Renderer.BombermanRenderer.Initialize` | src/frontend/src/game/bombermanRenderer.ts:38-60 | Keeps the earlier log as a prefix. Appends exactly the start-up emission of the current state: players, then bombs, then bonuses. Map and HUD logs stay equal. |
| `Renderer.BombermanRenderer.AddPlayerListeners` | src/frontend/src/game/bombermanRenderer.ts:76-79 | Appends one added call per player id of the current state to both logs. Each id appears once, with that player as payload. |
| `Renderer.BombermanRenderer.AddBombsListeners` | src/frontend/src/game/bombermanRenderer.ts:95-98 | Appends one added call per bomb id of the current state to both logs. Each id appears once, with that bomb as payload. |
| `Renderer.BombermanRenderer.AddBonusesListeners` | src/frontend/src/game/bombermanRenderer.ts:114-117 | Appends one added call per bonus id of the current state to both logs. Each id appears once, with that bonus as payload. |
| `Renderer.BombermanRenderer.OnStateChanged` | src/frontend/src/game/bombermanRenderer.ts:120-132 | Afterwards the previous snapshot equals the current state, in every case. With no previous snapshot: no call and no scratch-set change. Outside replay mode: only a state-changed call with the old previous snapshot. In replay mode: the bomb diff, then the bonus diff, then that state-changed call. Both logs receive the same calls. |
| `Renderer.BombermanRenderer.AddNewAndRemoveOldBombsForReplay` | src/frontend/src/game/bombermanRenderer.ts:134-156 | Appends the added bomb calls, then the removed bomb calls, forming a replay diff from the previous to the current bombs. Afterwards the scratch set holds exactly previous ids minus current ids, whatever it held before it was cleared. |
| `Renderer.BombermanRenderer.AddNewAndRemoveOldBonusesForReplay` | src/frontend/src/game/bombermanRenderer.ts:158-180 | The same as the bomb diff, over the bonuses and their own scratch set. |
| `Renderer.ReplayPassIsIdempotent` | src/frontend/src/game/bombermanRenderer.ts:120-132 | A replay pass over a state equal to the retained snapshot (the situation every pass leaves behind) appends exactly one call to the earlier log, the state-changed call carrying that state: no added and no removed call. The retained snapshot stays the same and both scratch sets end empty. |
| `SnapshotDiff.ReplayDiffIsSetDifference` | src/frontend/src/game/bombermanRenderer.ts:139-155 | Added ids are exactly current minus previous, and removed ids exactly previous minus current. Each list is as long as its set difference. |
| `SnapshotDiff.ReplayDiffPayloads` | src/frontend/src/game/bombermanRenderer.ts:143-155 | Every removed call carries the entity from the previous snapshot. Every added call carries the entity from the current one. |
| `SnapshotDiff.ReplayDiffCommonIdsSilent` | src/frontend/src/game/bombermanRenderer.ts:143-146 | An id present in both snapshots appears in no added and no removed call. |
| `SnapshotDiff.ReplayDiffAtMostOncePerId` | src/frontend/src/game/bombermanRenderer.ts:143-155 | Across the whole pass (added followed by removed), no id occurs twice. |
| `SnapshotDiff.ReplayDiffOfUnchangedIsEmpty` | src/frontend/src/game/bombermanRenderer.ts:136-156 | When the previous and current id sets are equal, the pass emits nothing. |
| `SnapshotDiff.ReplayDiffUnique` | src/frontend/src/game/bombermanRenderer.ts:139-155 | Two passes over the same pair of snapshots emit the same added and the same removed calls, differing at most in order. |
| `SnapshotDiff.StartupIsDiffFromEmpty` | src/frontend/src/game/bombermanRenderer.ts:95-98 | A start-up emission of a collection is exactly a replay diff from an empty previous collection, and conversely. |
| `SnapshotDiff.ReplayScenario` | src/frontend/src/game/bombermanRenderer.ts:136-156 | Previous ids {b1, b2} and current ids {b2, b3}: the pass adds b3 with its current payload, removes b1 with its previous payload, and emits nothing for b2. |
| `SnapshotDiff.CoversUnique` | src/frontend/src/game/bombermanRenderer.ts:152-155 | Two lists that name each entry of the same map once, with the same kind of change, hold the same changes. |
| `Env.NatToStringDecimal` | src/client/bomberjamEnv.ts:63 | The decimal rendering of an index is a non-empty digit string with no leading zero that denotes the index. |
| `Env.CreateBot` | src/client/bomberjamEnv.ts:61-66 | The bot with index `i` starts with action `stay`, and its id begins with `bot-` followed by at least one character. |
| `Env.CreateBotShape` | src/client/bomberjamEnv.ts:61-66 | Bot `i` starts with action `stay`. Its id is `bot-` followed by the decimal digits of `i`. |
| `Env.BotIdsDistinct` | src/client/bomberjamEnv.ts:27-31 | Bots created from different indices have different ids. |
| `Env.BomberjamEnv.constructor` | src/client/bomberjamEnv.ts:21-32 | `actionSize` is 10. There are `n` bots, or none when `n` is below one, and bot `i` is `createBot(i)`. The state is the fresh state, unpaused, after one `addPlayer(id, id)` per bot in index order. |
| `Env.BuildPlayerMessages` | src/client/bomberjamEnv.ts:35-49 | The loop returns exactly the index-ordered messages of the living bots among the first `actions.length`. |
| `Env.PlayerMessagesMembers` | src/client/bomberjamEnv.ts:36-49 | A message is built if and only if some index `i < actions.length` has a living player and the message is (`actions[i]`, `bots[i].id`, current tick, 0). |
| `Env.PlayerMessagesCount` | src/client/bomberjamEnv.ts:36-49 | There are exactly as many messages as living bots among the first `actions.length` indices. |
| `Env.PlayerMessagesFromLivingPlayers` | src/client/bomberjamEnv.ts:41-47 | Every message carries the tick from before the batch and an elapsed time of 0. It names a player that is present and alive, so a dead player never gets a message. |
| `Env.StepScenarioFirstBotDead` | src/client/bomberjamEnv.ts:36-49 | Two bots at tick 5, bot 0 dead: the only message is bot 1's action, stamped with tick 5. |
| `ClientUtils.Shuffle` | src/client/bomberjamEnv.ts:51 | Returns a permutation of its input: the same multiset of messages. |
| `Env.BomberjamEnv.Step` | src/client/bomberjamEnv.ts:34-58 | Applies to the old state a batch that is a permutation of the built messages; its size is the number of living bots among the first `actions.length`. Returns the sanitized new state, rewards `[0, 0, 0, 0]`, and `done` as the negation of `isPlaying()` on the new state. Needs `actions.length <= bots.length`, and each of those bots' ids in the player map. |

## Left out

- Pixi rendering is not modelled: stage layout, resize, sound selection by
  phase (bombermanRenderer.ts lines 42-53) and per-frame animation forwarding
  (lines 182-185). None of it takes part in reconciliation.
- `map.initialize()` and `hud.initialize()` (lines 39-40) are not logged. The
  logs record only the entity and state-changed calls.
- Installing the Colyseus `onAdd`/`onRemove` hooks in live mode (lines 64-74,
  83-93, 102-112) is not modelled. These are callbacks on transport objects.
  The model shows only that live mode does no diffing of its own in
  `OnStateChanged`.
- `JSON.parse(JSON.stringify(...))` (line 131) is modelled as a value copy.
  Snapshots are immutable datatypes, so a retained snapshot never shares
  structure with the live one.
- Renderer.BombermanRenderer.constructor: in the source the initial retained
  snapshot (line 31) is the live state object itself, not a copy, so if that
  object is updated in place before the first `onStateChanged`, the first pass
  sees the updated object as its previous state (the first state-changed call
  then carries the current state, and a first replay diff compares the state
  with itself and emits nothing). The model assumes the live state is replaced,
  never updated in place, so it does not capture this aliasing.
- Renderer.BombermanRenderer.OnStateChanged: the case with no previous
  snapshot arises in the source only when the provider's state is `null`
  (line 121 tests truthiness). The model's state is never null and every
  assignment sets a snapshot, so that case is stated but not reachable.
- The internals of `GameState` are not modelled: the fresh state, `addPlayer`,
  `applyClientMessages`, `isPlaying` and the tick advance. Nor is
  `createSanitizedStateCopyForBot`. `src/server/state` and `src/client/utils`
  are not part of this model; these operations are uninterpreted function
  parameters.
- Shuffle randomness and fairness are not modelled. `Shuffle` picks an
  arbitrary remaining element each round; the statistical uniformity of the
  real shuffle cannot be stated here.
- Env.BomberjamEnv.constructor: `numberOfPlayers` is an integer. A fractional
  JavaScript number (which would round the bot count up) is not modelled.
- Env.BomberjamEnv.Step: a missing player or `actions.length > bots.length` makes
  the source throw a `TypeError`. The model makes both preconditions instead
  of modelling the exception.
- Entity fields other than `alive` (positions, countdown, range, kind) stand
  for the payload the core passes along unread. They are not the full
  server-side shapes, which are not part of this model.
