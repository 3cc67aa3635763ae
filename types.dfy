/** Shapes shared by the renderer and the bot environment: the game's entities,
    its state snapshot and the message a client sends to the simulation. */
module Types {

  datatype Option<T> = None | Some(value: T)

  /** An action code is one of the game's action names, sent as a string. */
  type ActionCode = string

  const Stay: ActionCode := "stay"

  /** A player. `alive` is the only field the core inspects; the position
      stands for the remaining fields, which it only passes along. */
  datatype Player = Player(alive: bool, x: int, y: int)

  /** A bomb on the map; the core only passes it along. */
  datatype Bomb = Bomb(playerId: string, x: int, y: int, countdown: int, range: int)

  /** A bonus lying on the map; the core only passes it along. */
  datatype Bonus = Bonus(x: int, y: int, kind: string)

  /** A state snapshot as the renderer sees it: the phase (`state`), the tick
      and the three id-keyed entity collections. */
  datatype GameStateSnapshot = GameStateSnapshot(
    state: int,
    tick: int,
    players: map<string, Player>,
    bombs: map<string, Bomb>,
    bonuses: map<string, Bonus>)

  /** What a client submits to the simulation for one player and one tick. */
  datatype ClientMessage = ClientMessage(action: ActionCode, playerId: string, tick: int, elapsed: int)
}
