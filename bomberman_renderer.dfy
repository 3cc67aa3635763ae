/** The renderer's state-change reconciliation: start-up emission of every
    existing entity, and on every state change an optional replay diff of bombs
    and bonuses against the retained previous snapshot, a state-changed call
    to both consumers, and the capture of a new previous snapshot. The map and
    HUD consumers are two append-only logs of the calls they receive. */
module Renderer {
  import opened Types
  import opened SnapshotDiff

  /** One call received by a consumer (GameMap or GameHud). */
  datatype Event =
    | PlayerEvent(player: Change<Player>)
    | BombEvent(bomb: Change<Bomb>)
    | BonusEvent(bonus: Change<Bonus>)
    | StateChanged(prevState: GameStateSnapshot)

  function PlayerEvents(cs: seq<Change<Player>>): (es: seq<Event>)
    ensures |es| == |cs| && forall i :: 0 <= i < |cs| ==> es[i] == PlayerEvent(cs[i])
  {
    seq(|cs|, i requires 0 <= i < |cs| => PlayerEvent(cs[i]))
  }

  function BombEvents(cs: seq<Change<Bomb>>): (es: seq<Event>)
    ensures |es| == |cs| && forall i :: 0 <= i < |cs| ==> es[i] == BombEvent(cs[i])
  {
    seq(|cs|, i requires 0 <= i < |cs| => BombEvent(cs[i]))
  }

  function BonusEvents(cs: seq<Change<Bonus>>): (es: seq<Event>)
    ensures |es| == |cs| && forall i :: 0 <= i < |cs| ==> es[i] == BonusEvent(cs[i])
  {
    seq(|cs|, i requires 0 <= i < |cs| => BonusEvent(cs[i]))
  }

  /** The log of a start-up emission over `s`: every player, then every
      bomb, then every bonus of `s`, each once, announced as added. */
  ghost predicate StartupLog(log: seq<Event>, s: GameStateSnapshot, ps: seq<Change<Player>>,
                             bs: seq<Change<Bomb>>, ns: seq<Change<Bonus>>)
  {
    && AnnouncesAdded(ps, s.players)
    && AnnouncesAdded(bs, s.bombs)
    && AnnouncesAdded(ns, s.bonuses)
    && log == PlayerEvents(ps) + BombEvents(bs) + BonusEvents(ns)
  }

  /** The object that holds the live state; the simulation or the replay
      player reassigns `state` between reconciliation passes. */
  class StateProvider {
    var state: GameStateSnapshot

    constructor (initial: GameStateSnapshot)
      ensures state == initial
    {
      state := initial;
    }
  }

  class BombermanRenderer {
    const stateProvider: StateProvider
    const isReplay: bool
    var prevState: Option<GameStateSnapshot>

    /** Calls received by the map consumer and by the HUD consumer. */
    var mapLog: seq<Event>
    var hudLog: seq<Event>

    /** Scratch sets of the replay diff, kept between passes. */
    var removedBombIds: set<string>
    var removedBonusIds: set<string>

    /** Every call goes to the map and then to the HUD, so both see the same calls. */
    ghost predicate Valid()
      reads this
    {
      mapLog == hudLog
    }

    constructor (stateProvider: StateProvider, isReplay: bool)
      ensures Valid()
      ensures this.stateProvider == stateProvider && this.isReplay == isReplay
      ensures prevState == Some(stateProvider.state)
      ensures removedBombIds == {} && removedBonusIds == {}
      ensures exists ps, bs, ns :: StartupLog(mapLog, stateProvider.state, ps, bs, ns)
    {
      this.stateProvider := stateProvider;
      this.isReplay := isReplay;
      prevState := Some(stateProvider.state);
      mapLog, hudLog := [], [];
      removedBombIds, removedBonusIds := {}, {};
      new;
      ghost var ps, bs, ns := Initialize();
    }

    /** Sends one call to the map and then to the HUD. */
    method Emit(e: Event)
      requires Valid()
      modifies this`mapLog, this`hudLog
      ensures Valid() && mapLog == old(mapLog) + [e]
    {
      mapLog := mapLog + [e];
      hudLog := hudLog + [e];
    }

    /** Start-up emission (`initialize` / `registerStateChangeHandlers`). */
    method Initialize() returns (ghost ps: seq<Change<Player>>, ghost bs: seq<Change<Bomb>>,
                                 ghost ns: seq<Change<Bonus>>)
      requires Valid()
      modifies this`mapLog, this`hudLog
      ensures Valid()
      ensures |mapLog| >= |old(mapLog)| && mapLog[..|old(mapLog)|] == old(mapLog)
      ensures StartupLog(mapLog[|old(mapLog)|..], stateProvider.state, ps, bs, ns)
    {
      ps := AddPlayerListeners();
      bs := AddBombsListeners();
      ns := AddBonusesListeners();
      assert mapLog == old(mapLog) + (PlayerEvents(ps) + BombEvents(bs) + BonusEvents(ns));
    }

    /** One added call per player already present. */
    method AddPlayerListeners() returns (ghost cs: seq<Change<Player>>)
      requires Valid()
      modifies this`mapLog, this`hudLog
      ensures Valid()
      ensures AnnouncesAdded(cs, stateProvider.state.players)
      ensures mapLog == old(mapLog) + PlayerEvents(cs)
    {
      var players := stateProvider.state.players;
      var pending := players.Keys;
      cs := [];
      while pending != {}
        invariant pending <= players.Keys
        invariant AnnouncesAdded(cs, players - pending)
        invariant Valid() && mapLog == old(mapLog) + PlayerEvents(cs)
        decreases pending
      {
        var id :| id in pending;
        var c := Added(id, players[id]);
        AnnounceAddedNext(cs, players, pending, c);
        Emit(PlayerEvent(c));
        cs := cs + [c];
        pending := pending - {id};
      }
      NothingPending(players);
    }

    /** One added call per bomb already present. */
    method AddBombsListeners() returns (ghost cs: seq<Change<Bomb>>)
      requires Valid()
      modifies this`mapLog, this`hudLog
      ensures Valid()
      ensures AnnouncesAdded(cs, stateProvider.state.bombs)
      ensures mapLog == old(mapLog) + BombEvents(cs)
    {
      var bombs := stateProvider.state.bombs;
      var pending := bombs.Keys;
      cs := [];
      while pending != {}
        invariant pending <= bombs.Keys
        invariant AnnouncesAdded(cs, bombs - pending)
        invariant Valid() && mapLog == old(mapLog) + BombEvents(cs)
        decreases pending
      {
        var id :| id in pending;
        var c := Added(id, bombs[id]);
        AnnounceAddedNext(cs, bombs, pending, c);
        Emit(BombEvent(c));
        cs := cs + [c];
        pending := pending - {id};
      }
      NothingPending(bombs);
    }

    /** One added call per bonus already present. */
    method AddBonusesListeners() returns (ghost cs: seq<Change<Bonus>>)
      requires Valid()
      modifies this`mapLog, this`hudLog
      ensures Valid()
      ensures AnnouncesAdded(cs, stateProvider.state.bonuses)
      ensures mapLog == old(mapLog) + BonusEvents(cs)
    {
      var bonuses := stateProvider.state.bonuses;
      var pending := bonuses.Keys;
      cs := [];
      while pending != {}
        invariant pending <= bonuses.Keys
        invariant AnnouncesAdded(cs, bonuses - pending)
        invariant Valid() && mapLog == old(mapLog) + BonusEvents(cs)
        decreases pending
      {
        var id :| id in pending;
        var c := Added(id, bonuses[id]);
        AnnounceAddedNext(cs, bonuses, pending, c);
        Emit(BonusEvent(c));
        cs := cs + [c];
        pending := pending - {id};
      }
      NothingPending(bonuses);
    }

    /** One reconciliation pass. With a previous snapshot: in replay mode the
        bomb diff and then the bonus diff, then a state-changed call carrying
        the previous snapshot; in every case the current state becomes the
        new previous snapshot. */
    method OnStateChanged() returns (ghost addedBombs: seq<Change<Bomb>>, ghost removedBombs: seq<Change<Bomb>>,
                                     ghost addedBonuses: seq<Change<Bonus>>, ghost removedBonuses: seq<Change<Bonus>>)
      requires Valid()
      modifies this`mapLog, this`hudLog, this`prevState, this`removedBombIds, this`removedBonusIds
      ensures Valid()
      ensures prevState == Some(stateProvider.state)
      // Every assignment in this model sets `Some`, so the `None` case only
      // stands for the source's provider state becoming `null`.
      ensures old(prevState).None? ==>
        mapLog == old(mapLog) && removedBombIds == old(removedBombIds) && removedBonusIds == old(removedBonusIds)
      ensures old(prevState).Some? && !isReplay ==>
        && mapLog == old(mapLog) + [StateChanged(old(prevState).value)]
        && removedBombIds == old(removedBombIds) && removedBonusIds == old(removedBonusIds)
      ensures old(prevState).Some? && isReplay ==>
        var prev, cur := old(prevState).value, stateProvider.state;
        && IsReplayDiff(addedBombs, removedBombs, prev.bombs, cur.bombs)
        && IsReplayDiff(addedBonuses, removedBonuses, prev.bonuses, cur.bonuses)
        && mapLog == old(mapLog) + BombEvents(addedBombs) + BombEvents(removedBombs)
                               + BonusEvents(addedBonuses) + BonusEvents(removedBonuses)
                               + [StateChanged(prev)]
        && removedBombIds == prev.bombs.Keys - cur.bombs.Keys
        && removedBonusIds == prev.bonuses.Keys - cur.bonuses.Keys
    {
      addedBombs, removedBombs, addedBonuses, removedBonuses := [], [], [], [];
      if prevState.Some? {
        if isReplay {
          addedBombs, removedBombs := AddNewAndRemoveOldBombsForReplay();
          addedBonuses, removedBonuses := AddNewAndRemoveOldBonusesForReplay();
        }
        Emit(StateChanged(prevState.value));
      }
      prevState := Some(stateProvider.state);
    }

    /** The replay bomb diff: seed the scratch set with the previous ids,
        strike every current id from it or announce it as added, then
        announce what is left as removed with its previous payload. */
    method AddNewAndRemoveOldBombsForReplay() returns (ghost added: seq<Change<Bomb>>, ghost removed: seq<Change<Bomb>>)
      requires Valid() && prevState.Some?
      modifies this`mapLog, this`hudLog, this`removedBombIds
      ensures Valid()
      ensures IsReplayDiff(added, removed, prevState.value.bombs, stateProvider.state.bombs)
      ensures mapLog == old(mapLog) + BombEvents(added) + BombEvents(removed)
      ensures removedBombIds == prevState.value.bombs.Keys - stateProvider.state.bombs.Keys
    {
      var prev := prevState.value.bombs;
      var cur := stateProvider.state.bombs;
      removedBombIds := {};
      var pending := prev.Keys;
      while pending != {}
        invariant pending <= prev.Keys
        invariant removedBombIds == prev.Keys - pending
        invariant Valid() && mapLog == old(mapLog)
        decreases pending
      {
        var id :| id in pending;
        removedBombIds := removedBombIds + {id};
        pending := pending - {id};
      }

      var appeared := cur - prev.Keys;
      added := [];
      pending := cur.Keys;
      while pending != {}
        invariant pending <= cur.Keys
        invariant removedBombIds == prev.Keys - (cur.Keys - pending)
        invariant AnnouncesAdded(added, appeared - pending)
        invariant Valid() && mapLog == old(mapLog) + BombEvents(added)
        decreases pending
      {
        var id :| id in pending;
        if id in removedBombIds {
          removedBombIds := removedBombIds - {id};
          SkipPending(appeared, pending, id);
        } else {
          var c := Added(id, cur[id]);
          AnnounceAddedNext(added, appeared, pending, c);
          Emit(BombEvent(c));
          added := added + [c];
        }
        pending := pending - {id};
      }
      NothingPending(appeared);

      var vanished := prev - cur.Keys;
      removed := [];
      var leftover := removedBombIds;
      while leftover != {}
        invariant leftover <= removedBombIds == vanished.Keys
        invariant AnnouncesRemoved(removed, vanished - leftover)
        invariant Valid() && mapLog == old(mapLog) + BombEvents(added) + BombEvents(removed)
        decreases leftover
      {
        var id :| id in leftover;
        var c := Removed(id, prev[id]);
        AnnounceRemovedNext(removed, vanished, leftover, c);
        Emit(BombEvent(c));
        removed := removed + [c];
        leftover := leftover - {id};
      }
      NothingPending(vanished);
    }

    /** The replay bonus diff, the same algorithm over the bonus collection
        and its own scratch set. */
    method AddNewAndRemoveOldBonusesForReplay() returns (ghost added: seq<Change<Bonus>>, ghost removed: seq<Change<Bonus>>)
      requires Valid() && prevState.Some?
      modifies this`mapLog, this`hudLog, this`removedBonusIds
      ensures Valid()
      ensures IsReplayDiff(added, removed, prevState.value.bonuses, stateProvider.state.bonuses)
      ensures mapLog == old(mapLog) + BonusEvents(added) + BonusEvents(removed)
      ensures removedBonusIds == prevState.value.bonuses.Keys - stateProvider.state.bonuses.Keys
    {
      var prev := prevState.value.bonuses;
      var cur := stateProvider.state.bonuses;
      removedBonusIds := {};
      var pending := prev.Keys;
      while pending != {}
        invariant pending <= prev.Keys
        invariant removedBonusIds == prev.Keys - pending
        invariant Valid() && mapLog == old(mapLog)
        decreases pending
      {
        var id :| id in pending;
        removedBonusIds := removedBonusIds + {id};
        pending := pending - {id};
      }

      var appeared := cur - prev.Keys;
      added := [];
      pending := cur.Keys;
      while pending != {}
        invariant pending <= cur.Keys
        invariant removedBonusIds == prev.Keys - (cur.Keys - pending)
        invariant AnnouncesAdded(added, appeared - pending)
        invariant Valid() && mapLog == old(mapLog) + BonusEvents(added)
        decreases pending
      {
        var id :| id in pending;
        if id in removedBonusIds {
          removedBonusIds := removedBonusIds - {id};
          SkipPending(appeared, pending, id);
        } else {
          var c := Added(id, cur[id]);
          AnnounceAddedNext(added, appeared, pending, c);
          Emit(BonusEvent(c));
          added := added + [c];
        }
        pending := pending - {id};
      }
      NothingPending(appeared);

      var vanished := prev - cur.Keys;
      removed := [];
      var leftover := removedBonusIds;
      while leftover != {}
        invariant leftover <= removedBonusIds == vanished.Keys
        invariant AnnouncesRemoved(removed, vanished - leftover)
        invariant Valid() && mapLog == old(mapLog) + BonusEvents(added) + BonusEvents(removed)
        decreases leftover
      {
        var id :| id in leftover;
        var c := Removed(id, prev[id]);
        AnnounceRemovedNext(removed, vanished, leftover, c);
        Emit(BonusEvent(c));
        removed := removed + [c];
        leftover := leftover - {id};
      }
      NothingPending(vanished);
    }
  }

  /** A replay pass over a state that has not changed since the last pass
      (every pass leaves `prevState == Some(stateProvider.state)`, see
      `OnStateChanged`) emits no added or removed call, only the state-changed
      call, keeps the retained snapshot and leaves both scratch sets empty. */
  method ReplayPassIsIdempotent(r: BombermanRenderer)
    requires r.Valid() && r.isReplay && r.prevState == Some(r.stateProvider.state)
    modifies r
    ensures r.Valid()
    ensures r.mapLog == old(r.mapLog) + [StateChanged(old(r.stateProvider.state))]
    ensures r.prevState == old(r.prevState)
    ensures r.removedBombIds == {} && r.removedBonusIds == {}
  {
    var s := r.stateProvider.state;
    ghost var addedBombs, removedBombs, addedBonuses, removedBonuses := r.OnStateChanged();
    ReplayDiffOfUnchangedIsEmpty(addedBombs, removedBombs, s.bombs, s.bombs);
    ReplayDiffOfUnchangedIsEmpty(addedBonuses, removedBonuses, s.bonuses, s.bonuses);
  }
}
