/** The headless bot environment: a fixed list of bots registered as players,
    and a step that turns one action per bot into client messages for the
    living players, submits them in shuffled order and returns an observation.
    The simulation itself is a collaborator given as functions. */
module Env {
  import opened Types
  import ClientUtils

  datatype Bot = Bot(id: string, action: ActionCode)

  /** The simulation state as far as the environment sees it. */
  datatype GameState = GameState(tick: int, players: map<string, Player>, isSimulationPaused: bool)

  datatype Observation = Observation(state: GameState, rewards: seq<int>, done: bool)

  /** The simulation's operations, whose rules are not part of this model:
      a fresh state, player registration (id, name), applying a batch of
      messages, the still-playing predicate and the sanitized copy a bot sees. */
  datatype Simulation = Simulation(
    initial: GameState,
    addPlayer: (GameState, string, string) -> GameState,
    applyClientMessages: (GameState, seq<ClientMessage>) -> GameState,
    isPlaying: GameState -> bool,
    sanitizedCopyForBot: GameState -> GameState)

  // Decimal rendering of a bot index, as a template literal renders a number.

  predicate IsDigit(c: char) {
    '0' <= c <= '9'
  }

  predicate IsDecimal(s: string) {
    forall i :: 0 <= i < |s| ==> IsDigit(s[i])
  }

  /** The number a string of decimal digits denotes. */
  function DecimalValue(s: string): nat
    requires IsDecimal(s)
  {
    if s == [] then 0 else DecimalValue(s[..|s| - 1]) * 10 + (s[|s| - 1] as int - '0' as int)
  }

  function DigitChar(d: nat): char
    requires d < 10
  {
    ('0' as int + d) as char
  }

  /** The decimal digits of `n`. */
  function NatToString(n: nat): string {
    if n < 10 then [DigitChar(n)] else NatToString(n / 10) + [DigitChar(n % 10)]
  }

  /** `NatToString` yields decimal digits, without leading zeros, that denote `n`. */
  lemma {:induction false} NatToStringDecimal(n: nat)
    ensures var s := NatToString(n);
      |s| > 0 && IsDecimal(s) && DecimalValue(s) == n && (s[0] == '0' ==> n == 0)
  {
    if n >= 10 {
      var q, r := n / 10, n % 10;
      NatToStringDecimal(q);
      var prefix := NatToString(q);
      var digit := DigitChar(r);
      var s := NatToString(n);
      assert s == prefix + [digit];
      assert s[..|s| - 1] == prefix;
      assert DecimalValue(s) == DecimalValue(prefix) * 10 + r;
      assert q * 10 + r == n;
      assert s[0] == prefix[0];
    }
  }

  /** `createBot`: the bot with index `i`, which starts out staying put and
      whose id carries the `bot-` prefix (see `CreateBotShape` for the rest). */
  function CreateBot(i: nat): (b: Bot)
    ensures b.action == Stay && |b.id| > 4 && b.id[..4] == "bot-"
  {
    Bot("bot-" + NatToString(i), Stay)
  }

  /** The bot with index `i` starts with the action `stay` and is named
      `bot-` followed by `i` in decimal without leading zeros. */
  lemma CreateBotShape(i: nat)
    ensures CreateBot(i).action == Stay
    ensures var id := CreateBot(i).id;
      |id| > 4 && id[..4] == "bot-" && IsDecimal(id[4..])
      && DecimalValue(id[4..]) == i && (id[4] == '0' ==> i == 0)
  {
    NatToStringDecimal(i);
    assert CreateBot(i).id[4..] == NatToString(i);
  }

  /** Bots made from different indices have different ids. */
  lemma BotIdsDistinct(i: nat, j: nat)
    requires i != j
    ensures CreateBot(i).id != CreateBot(j).id
  {
    CreateBotShape(i);
    CreateBotShape(j);
  }

  /** The state after registering each bot, in order, as a player (id and name both the bot id). */
  function RegisterAll(sim: Simulation, s: GameState, bots: seq<Bot>): GameState
  {
    if bots == [] then s
    else
      var last := bots[|bots| - 1];
      sim.addPlayer(RegisterAll(sim, s, bots[..|bots| - 1]), last.id, last.id)
  }

  /** Registering one more bot is one more `addPlayer` call on the state so far. */
  lemma RegisterAllSnoc(sim: Simulation, s: GameState, bots: seq<Bot>, bot: Bot)
    ensures RegisterAll(sim, s, bots + [bot]) == sim.addPlayer(RegisterAll(sim, s, bots), bot.id, bot.id)
  {
    assert (bots + [bot])[..|bots|] == bots;
  }

  /** `step` looks up the player of every bot that receives an action. */
  predicate CanStep(actions: seq<ActionCode>, bots: seq<Bot>, s: GameState) {
    |actions| <= |bots| && forall i :: 0 <= i < |actions| ==> bots[i].id in s.players
  }

  /** The messages `step` builds, in index order: one for each index whose
      bot's player is alive, carrying that index's action, the bot id, the
      current tick and an elapsed time of 0. */
  function PlayerMessages(actions: seq<ActionCode>, bots: seq<Bot>, s: GameState): seq<ClientMessage>
    requires CanStep(actions, bots, s)
  {
    if actions == [] then []
    else
      var i := |actions| - 1;
      PlayerMessages(actions[..i], bots, s)
        + (if s.players[bots[i].id].alive then [ClientMessage(actions[i], bots[i].id, s.tick, 0)] else [])
  }

  /** The indices among the first `|actions|` whose bot's player is alive. */
  function AliveIndices(actions: seq<ActionCode>, bots: seq<Bot>, s: GameState): set<nat>
    requires CanStep(actions, bots, s)
  {
    set i: nat | i < |actions| && s.players[bots[i].id].alive
  }

  /** `m` is the message index `i` contributes: its bot's player is alive and
      `m` carries the index's action, the bot id, the tick and an elapsed time of 0. */
  predicate BuiltAt(actions: seq<ActionCode>, bots: seq<Bot>, s: GameState, i: int, m: ClientMessage)
    requires CanStep(actions, bots, s)
  {
    && 0 <= i < |actions|
    && s.players[bots[i].id].alive
    && m == ClientMessage(actions[i], bots[i].id, s.tick, 0)
  }

  /** A message is built exactly when some index contributes it. */
  lemma {:induction false} PlayerMessagesMembers(actions: seq<ActionCode>, bots: seq<Bot>, s: GameState, m: ClientMessage)
    requires CanStep(actions, bots, s)
    ensures m in PlayerMessages(actions, bots, s) <==> exists i :: BuiltAt(actions, bots, s, i, m)
  {
    if actions != [] {
      var n := |actions| - 1;
      var init := actions[..n];
      PlayerMessagesMembers(init, bots, s, m);
      var last := if s.players[bots[n].id].alive then [ClientMessage(actions[n], bots[n].id, s.tick, 0)] else [];
      assert PlayerMessages(actions, bots, s) == PlayerMessages(init, bots, s) + last;
      assert m in last <==> BuiltAt(actions, bots, s, n, m);
      if m in PlayerMessages(init, bots, s) {
        var i :| BuiltAt(init, bots, s, i, m);
        assert init[i] == actions[i];
        assert BuiltAt(actions, bots, s, i, m);
      }
      if i :| BuiltAt(actions, bots, s, i, m) {
        if i < n {
          assert init[i] == actions[i];
          assert BuiltAt(init, bots, s, i, m);
        }
      }
    }
  }

  /** One message per living bot among the first `|actions|`. */
  lemma {:induction false} PlayerMessagesCount(actions: seq<ActionCode>, bots: seq<Bot>, s: GameState)
    requires CanStep(actions, bots, s)
    ensures |PlayerMessages(actions, bots, s)| == |AliveIndices(actions, bots, s)|
  {
    if actions != [] {
      var n := |actions| - 1;
      var init := actions[..n];
      PlayerMessagesCount(init, bots, s);
      if s.players[bots[n].id].alive {
        assert AliveIndices(actions, bots, s) == AliveIndices(init, bots, s) + {n};
      } else {
        assert AliveIndices(actions, bots, s) == AliveIndices(init, bots, s);
      }
    }
  }

  /** Every built message is stamped with the tick from before the batch and
      an elapsed time of 0, and no message names a player that is not alive. */
  lemma PlayerMessagesFromLivingPlayers(actions: seq<ActionCode>, bots: seq<Bot>, s: GameState, m: ClientMessage)
    requires CanStep(actions, bots, s)
    requires m in PlayerMessages(actions, bots, s)
    ensures m.tick == s.tick && m.elapsed == 0
    ensures m.playerId in s.players && s.players[m.playerId].alive
  {
    PlayerMessagesMembers(actions, bots, s, m);
  }

  /** Two bots at tick 5, the first one dead: only the second bot's action is sent. */
  lemma StepScenarioFirstBotDead(s: GameState, a0: ActionCode, a1: ActionCode)
    requires s.tick == 5 && s.players.Keys == {"bot-0", "bot-1"}
    requires !s.players["bot-0"].alive && s.players["bot-1"].alive
    ensures CanStep([a0, a1], [CreateBot(0), CreateBot(1)], s)
    ensures PlayerMessages([a0, a1], [CreateBot(0), CreateBot(1)], s) == [ClientMessage(a1, "bot-1", 5, 0)]
  {
    var actions, bots := [a0, a1], [CreateBot(0), CreateBot(1)];
    assert NatToString(0) == "0" && NatToString(1) == "1";
    assert bots[0].id == "bot-0" && bots[1].id == "bot-1";
    assert actions[..1] == [a0] && [a0][..0] == [];
    assert PlayerMessages([a0], bots, s) == PlayerMessages([], bots, s);
    assert PlayerMessages(actions, bots, s) == PlayerMessages([a0], bots, s) + [ClientMessage(a1, "bot-1", 5, 0)];
  }

  /** The message-building loop of `step`. */
  method BuildPlayerMessages(actions: seq<ActionCode>, bots: seq<Bot>, s: GameState) returns (msgs: seq<ClientMessage>)
    requires CanStep(actions, bots, s)
    ensures msgs == PlayerMessages(actions, bots, s)
  {
    msgs := [];
    var i := 0;
    while i < |actions|
      invariant 0 <= i <= |actions|
      invariant msgs == PlayerMessages(actions[..i], bots, s)
    {
      var action := actions[i];
      var bot := bots[i];
      var player := s.players[bot.id];
      if player.alive {
        msgs := msgs + [ClientMessage(action, bot.id, s.tick, 0)];
      }
      assert actions[..i + 1][..i] == actions[..i];
      i := i + 1;
    }
    assert actions[..i] == actions;
  }

  class BomberjamEnv {
    const sim: Simulation
    var state: GameState
    var actionSize: int
    var bots: seq<Bot>

    /** Creates `numberOfPlayers` bots (none for a count below one), each
        registered with the simulation in index order. */
    constructor (numberOfPlayers: int, sim: Simulation)
      ensures this.sim == sim && actionSize == 10
      ensures |bots| == if numberOfPlayers > 0 then numberOfPlayers else 0
      ensures forall i :: 0 <= i < |bots| ==> bots[i] == CreateBot(i)
      ensures state == RegisterAll(sim, sim.initial.(isSimulationPaused := false), bots)
    {
      this.sim := sim;
      actionSize := 10;
      var initial := sim.initial.(isSimulationPaused := false);
      var s := initial;
      var bs: seq<Bot> := [];
      var i: nat := 0;
      while i < numberOfPlayers
        invariant numberOfPlayers > 0 ==> i <= numberOfPlayers
        invariant numberOfPlayers <= 0 ==> i == 0
        invariant |bs| == i && forall k :: 0 <= k < i ==> bs[k] == CreateBot(k)
        invariant s == RegisterAll(sim, initial, bs)
      {
        var bot := CreateBot(i);
        RegisterAllSnoc(sim, initial, bs, bot);
        bs := bs + [bot];
        s := sim.addPlayer(s, bot.id, bot.id);
        i := i + 1;
      }
      bots := bs;
      state := s;
    }

    /** One step: the living bots' messages, shuffled, applied as one batch;
        then the sanitized state, the fixed reward vector and whether play ended. */
    method Step(actions: seq<ActionCode>) returns (obs: Observation, ghost batch: seq<ClientMessage>)
      requires CanStep(actions, bots, state)
      modifies this`state
      ensures multiset(batch) == multiset(PlayerMessages(actions, bots, old(state)))
      ensures |batch| == |AliveIndices(actions, bots, old(state))|
      ensures state == sim.applyClientMessages(old(state), batch)
      ensures obs.state == sim.sanitizedCopyForBot(state)
      ensures obs.rewards == [0, 0, 0, 0]
      ensures obs.done == !sim.isPlaying(state)
    {
      var playerMessages := BuildPlayerMessages(actions, bots, state);
      var shuffled := ClientUtils.Shuffle(playerMessages);
      batch := shuffled;
      assert |batch| == |multiset(batch)| == |playerMessages|;
      PlayerMessagesCount(actions, bots, state);
      state := sim.applyClientMessages(state, shuffled);

      var sanitized := sim.sanitizedCopyForBot(state);
      var rewards := [0, 0, 0, 0];
      var done := !sim.isPlaying(state);
      obs := Observation(sanitized, rewards, done);
    }
  }
}
