/**
 * The arena region's boundary policy (ArenaRegion.java).
 *
 * The region's handlers act through calls into the arena, the event manager,
 * the scheduler and the messenger. Here each handler is a function from what
 * it reads to the list of those calls, in the order it makes them.
 */
module Region {
  import opened Platform

  /** What happens to a player who is not in the arena and walks into its region. */
  datatype OutsidersAction = OutsidersNone | OutsidersJoin | OutsidersKick

  /** What happens to a game player who walks out of the arena's region. */
  datatype OutOfBoundsAction =
    | OutOfBoundsNone | OutOfBoundsKick | OutOfBoundsWin | OutOfBoundsLose | OutOfBoundsRespawn

  /** A player's place in the arena. */
  datatype ArenaPlayerRelation = Game | Lobby | Spectator | NoRelation

  datatype AddPlayerReason = PlayerJoin
  datatype RemovePlayerReason = RemoveKick | RemoveLose

  /** Ticks between entering the region and the deferred re-check. */
  const RecheckDelayTicks: int := 5

  const OutsiderKickMessage: string := "You're not allowed inside the arena during a match."
  const LeaverKickMessage: string := "Kicked for leaving the arena."

  /** A call a handler makes. */
  datatype Effect =
    | EnterRegionEvent                        // PlayerEnterArenaRegionEvent sent to the arena's listeners
    | ScheduleRecheck(delayTicks: int)        // the deferred re-check handed to the scheduler
    | JoinArena(addReason: AddPlayerReason)
    | Teleport(destination: Location)
    | TellError(message: string)
    | LeaveRegionEvent                        // PlayerLeaveArenaRegionEvent sent to the arena's listeners
    | RemoveFromArena(removeReason: RemovePlayerReason)
    | SetWinner
    | RespawnPlayer

  function Count(effects: seq<Effect>, e: Effect): nat {
    if |effects| == 0 then 0
    else (if effects[0] == e then 1 else 0) + Count(effects[1..], e)
  }

  // ---------------------------------------------------------------------
  // Entering the region

  /** `canDoPlayerEnter`: outsiders are policed, the game runs, and the player is online and alive. */
  predicate CanDoPlayerEnter(outsiders: OutsidersAction, running: bool, online: bool, dead: bool)
    ensures outsiders == OutsidersNone || !running ==> !CanDoPlayerEnter(outsiders, running, online, dead)
    ensures !online || dead ==> !CanDoPlayerEnter(outsiders, running, online, dead)
  {
    outsiders != OutsidersNone && running && online && !dead
  }

  /** `onPlayerEnter`: nothing for a player of this arena; otherwise the event, then the re-check. */
  function OnPlayerEnter(inThisArena: bool): (effects: seq<Effect>)
    ensures effects == [] <==> inThisArena
    ensures !inThisArena ==> effects[0] == EnterRegionEvent && ScheduleRecheck(RecheckDelayTicks) in effects
    ensures forall e :: e in effects ==> e == EnterRegionEvent || e.ScheduleRecheck?
  {
    if inThisArena then [] else [EnterRegionEvent, ScheduleRecheck(RecheckDelayTicks)]
  }

  /** A crossing into the region: the region calls `onPlayerEnter` only when `canDoPlayerEnter` allows it. */
  function PlayerEnters(outsiders: OutsidersAction, running: bool, online: bool, dead: bool, inThisArena: bool): seq<Effect> {
    if CanDoPlayerEnter(outsiders, running, online, dead) then OnPlayerEnter(inThisArena) else []
  }

  /**
   * A crossing in does something exactly when the gate is open and the player
   * is not already in this arena, and then it sends one event and schedules
   * one re-check five ticks later, and nothing else.
   */
  lemma EnterCrossingEffects(outsiders: OutsidersAction, running: bool, online: bool, dead: bool, inThisArena: bool)
    ensures var effects := PlayerEnters(outsiders, running, online, dead, inThisArena);
            && (effects != [] <==> outsiders != OutsidersNone && running && online && !dead && !inThisArena)
            && (effects != [] ==>
                  Count(effects, EnterRegionEvent) == 1 && Count(effects, ScheduleRecheck(5)) == 1
                  && |effects| == 2 && effects[0] == EnterRegionEvent)
  {
    var effects := PlayerEnters(outsiders, running, online, dead, inThisArena);
    if effects != [] {
      assert effects == [EnterRegionEvent, ScheduleRecheck(5)];
      assert effects[1..] == [ScheduleRecheck(5)];
      assert effects[1..][1..] == [];
      assert Count(effects[1..], EnterRegionEvent) == 0;
      assert Count(effects[1..], ScheduleRecheck(5)) == 1;
    }
  }

  /**
   * The deferred re-check, with what it reads when it fires: whether the
   * player is still inside the region and the arena's outsiders action at
   * that moment.
   */
  function Recheck(stillInside: bool, action: OutsidersAction, removeLocation: Location): (effects: seq<Effect>)
    ensures !stillInside || action == OutsidersNone ==> effects == []
    ensures |effects| <= 2
    ensures forall e :: e in effects ==> e == JoinArena(PlayerJoin) || e.Teleport? || e.TellError?
  {
    if !stillInside then []
    else match action
      case OutsidersNone => []
      case OutsidersJoin => [JoinArena(PlayerJoin)]
      case OutsidersKick => [Teleport(removeLocation), TellError(OutsiderKickMessage)]
  }

  /** The re-check acts only on a player still inside under a live JOIN or KICK policy, and only as that policy says. */
  lemma RecheckFollowsLivePolicy(stillInside: bool, action: OutsidersAction, removeLocation: Location)
    ensures var effects := Recheck(stillInside, action, removeLocation);
            && (effects != [] <==> stillInside && action != OutsidersNone)
            && (JoinArena(PlayerJoin) in effects <==> stillInside && action == OutsidersJoin)
            && (Teleport(removeLocation) in effects <==> stillInside && action == OutsidersKick)
            && (stillInside && action == OutsidersKick ==> effects[|effects| - 1] == TellError(OutsiderKickMessage))
            && SetWinner !in effects && RespawnPlayer !in effects
  {
  }

  // ---------------------------------------------------------------------
  // Leaving the region

  /** `canDoPlayerLeave`: the game runs and leaving the bounds is policed. */
  predicate CanDoPlayerLeave(running: bool, outOfBounds: OutOfBoundsAction)
    ensures !running || outOfBounds == OutOfBoundsNone ==> !CanDoPlayerLeave(running, outOfBounds)
  {
    running && outOfBounds != OutOfBoundsNone
  }

  /** The out-of-bounds policy applied to a game player. */
  function LeavePolicy(outOfBounds: OutOfBoundsAction, gameOver: bool): (effects: seq<Effect>)
    ensures |effects| <= 2
    ensures gameOver ==> SetWinner !in effects && RemoveFromArena(RemoveLose) !in effects
    ensures LeaveRegionEvent !in effects && EnterRegionEvent !in effects
  {
    match outOfBounds
    case OutOfBoundsKick => [RemoveFromArena(RemoveKick), TellError(LeaverKickMessage)]
    case OutOfBoundsWin => if gameOver then [] else [SetWinner]
    case OutOfBoundsLose => if gameOver then [] else [RemoveFromArena(RemoveLose)]
    case OutOfBoundsRespawn => [RespawnPlayer]
    case OutOfBoundsNone => []
  }

  /**
   * `onPlayerLeave`: players of other arenas are ignored; for this arena's
   * players the leave event is sent, and then, read again after the event's
   * listeners have run, a player still in this arena as a game player gets
   * the out-of-bounds policy.
   */
  function OnPlayerLeave(inThisArena: bool, stillInThisArena: bool, relation: ArenaPlayerRelation,
                         outOfBounds: OutOfBoundsAction, gameOver: bool): (effects: seq<Effect>)
    ensures effects == [] <==> !inThisArena
    ensures inThisArena ==> effects[0] == LeaveRegionEvent && LeaveRegionEvent !in effects[1..]
    ensures !stillInThisArena || relation != Game ==> |effects| <= 1
  {
    if !inThisArena then []
    else [LeaveRegionEvent] +
         (if stillInThisArena && relation == Game then LeavePolicy(outOfBounds, gameOver) else [])
  }

  /** A game player leaving gets, after the event, exactly the effects of the policy; lobby and spectator players only the event. */
  lemma LeavePolicyOnlyForGamePlayers(stillInThisArena: bool, relation: ArenaPlayerRelation,
                                      outOfBounds: OutOfBoundsAction, gameOver: bool)
    ensures var effects := OnPlayerLeave(true, stillInThisArena, relation, outOfBounds, gameOver);
            && effects[0] == LeaveRegionEvent
            && (stillInThisArena && relation == Game ==> effects[1..] == LeavePolicy(outOfBounds, gameOver))
            && (!stillInThisArena || relation != Game ==> effects == [LeaveRegionEvent])
  {
  }

  /** A crossing out of the region: the region calls `onPlayerLeave` only when `canDoPlayerLeave` allows it. */
  function PlayerLeaves(running: bool, outOfBounds: OutOfBoundsAction, inThisArena: bool, stillInThisArena: bool,
                        relation: ArenaPlayerRelation, gameOver: bool): seq<Effect> {
    if CanDoPlayerLeave(running, outOfBounds) then OnPlayerLeave(inThisArena, stillInThisArena, relation, outOfBounds, gameOver)
    else []
  }

  /**
   * A crossing out does something exactly when the game runs, leaving is
   * policed and the player belongs to this arena; then the leave event comes
   * first and is sent once.
   */
  lemma LeaveCrossingEffects(running: bool, outOfBounds: OutOfBoundsAction, inThisArena: bool, stillInThisArena: bool,
                             relation: ArenaPlayerRelation, gameOver: bool)
    ensures var effects := PlayerLeaves(running, outOfBounds, inThisArena, stillInThisArena, relation, gameOver);
            && (effects != [] <==> running && outOfBounds != OutOfBoundsNone && inThisArena)
            && (effects != [] ==> effects[0] == LeaveRegionEvent && Count(effects, LeaveRegionEvent) == 1)
  {
    var effects := PlayerLeaves(running, outOfBounds, inThisArena, stillInThisArena, relation, gameOver);
    if effects != [] {
      var policy := effects[1..];
      assert LeaveRegionEvent !in policy;
      CountAbsent(policy, LeaveRegionEvent);
    }
  }

  /** What each policy does: WIN and LOSE only while the game is not over, KICK and RESPAWN always. */
  lemma LeavePolicyOutcomes(outOfBounds: OutOfBoundsAction, gameOver: bool)
    ensures var effects := LeavePolicy(outOfBounds, gameOver);
            && (SetWinner in effects <==> outOfBounds == OutOfBoundsWin && !gameOver)
            && (RemoveFromArena(RemoveLose) in effects <==> outOfBounds == OutOfBoundsLose && !gameOver)
            && (RemoveFromArena(RemoveKick) in effects <==> outOfBounds == OutOfBoundsKick)
            && (RespawnPlayer in effects <==> outOfBounds == OutOfBoundsRespawn)
            && (outOfBounds == OutOfBoundsNone ==> effects == [])
  {
  }

  /** A player crossing out of the region, as seen when its own crossing is handled. */
  datatype Leaver = Leaver(inThisArena: bool, relation: ArenaPlayerRelation)

  /**
   * Several players leave in the same tick, handled one after another. The
   * arena's `setWinner` ends the game, so later handlers see it over; no
   * other call changes that. No listener moves the players meanwhile.
   */
  function LeaveAll(outOfBounds: OutOfBoundsAction, gameOver: bool, leavers: seq<Leaver>): seq<Effect>
    decreases |leavers|
  {
    if |leavers| == 0 then []
    else
      var l := leavers[0];
      var effects := OnPlayerLeave(l.inThisArena, l.inThisArena, l.relation, outOfBounds, gameOver);
      effects + LeaveAll(outOfBounds, gameOver || SetWinner in effects, leavers[1..])
  }

  lemma CountAppend(a: seq<Effect>, b: seq<Effect>, e: Effect)
    ensures Count(a + b, e) == Count(a, e) + Count(b, e)
  {
    if |a| > 0 {
      assert (a + b)[0] == a[0];
      assert (a + b)[1..] == a[1..] + b;
      CountAppend(a[1..], b, e);
    } else {
      assert a + b == b;
    }
  }

  lemma {:induction false} CountAbsent(effects: seq<Effect>, e: Effect)
    requires e !in effects
    ensures Count(effects, e) == 0
  {
    if |effects| > 0 {
      CountAbsent(effects[1..], e);
    }
  }

  lemma {:induction false} NoWinnerOnceOver(outOfBounds: OutOfBoundsAction, leavers: seq<Leaver>)
    ensures Count(LeaveAll(outOfBounds, true, leavers), SetWinner) == 0
    decreases |leavers|
  {
    if |leavers| > 0 {
      var l := leavers[0];
      var effects := OnPlayerLeave(l.inThisArena, l.inThisArena, l.relation, outOfBounds, true);
      assert SetWinner !in effects;
      CountAbsent(effects, SetWinner);
      NoWinnerOnceOver(outOfBounds, leavers[1..]);
      CountAppend(effects, LeaveAll(outOfBounds, true, leavers[1..]), SetWinner);
    }
  }

  /**
   * Players racing out of bounds under the WIN policy: exactly one winner is
   * set if any of them is a game player of this arena and the game was not
   * over, and none otherwise.
   */
  lemma {:induction false} WinRaceSetsOneWinner(gameOver: bool, leavers: seq<Leaver>)
    ensures Count(LeaveAll(OutOfBoundsWin, gameOver, leavers), SetWinner) ==
            if !gameOver && exists k :: 0 <= k < |leavers| && leavers[k] == Leaver(true, Game) then 1 else 0
    decreases |leavers|
  {
    if gameOver {
      NoWinnerOnceOver(OutOfBoundsWin, leavers);
    } else if |leavers| > 0 {
      var l := leavers[0];
      var effects := OnPlayerLeave(l.inThisArena, l.inThisArena, l.relation, OutOfBoundsWin, false);
      CountAppend(effects, LeaveAll(OutOfBoundsWin, SetWinner in effects, leavers[1..]), SetWinner);
      if l == Leaver(true, Game) {
        assert effects == [LeaveRegionEvent, SetWinner];
        assert effects[1..] == [SetWinner] && effects[1..][1..] == [];
        assert Count(effects, SetWinner) == 1;
        NoWinnerOnceOver(OutOfBoundsWin, leavers[1..]);
      } else {
        assert SetWinner !in effects;
        CountAbsent(effects, SetWinner);
        WinRaceSetsOneWinner(false, leavers[1..]);
        assert (exists k :: 0 <= k < |leavers| && leavers[k] == Leaver(true, Game)) <==>
               (exists k :: 0 <= k < |leavers[1..]| && leavers[1..][k] == Leaver(true, Game)) by {
          if exists k :: 0 <= k < |leavers| && leavers[k] == Leaver(true, Game) {
            var k :| 0 <= k < |leavers| && leavers[k] == Leaver(true, Game);
            assert leavers[1..][k - 1] == leavers[k];
          }
        }
      }
    }
  }

  // ---------------------------------------------------------------------
  // The player-watcher flag

  /** The arena lifecycle events the region listens to. */
  datatype ArenaEvent = Started(outOfBounds: OutOfBoundsAction) | Ended

  /** The flag after one event: a start sets it when leaving is policed (and otherwise leaves it), an end clears it. */
  function WatcherAfter(watching: bool, e: ArenaEvent): bool {
    match e
    case Started(outOfBounds) => if outOfBounds != OutOfBoundsNone then true else watching
    case Ended => false
  }

  function WatcherAfterAll(watching: bool, events: seq<ArenaEvent>): bool
    decreases |events|
  {
    if |events| == 0 then watching else WatcherAfterAll(WatcherAfter(watching, events[0]), events[1..])
  }

  /** Starts and ends alternate, beginning with a start. */
  predicate Alternating(events: seq<ArenaEvent>) {
    forall k :: 0 <= k < |events| ==> (events[k].Started? <==> k % 2 == 0)
  }

  /**
   * Over an arena's life, beginning unwatched, the region watches players
   * exactly while a session runs whose out-of-bounds action is not NONE.
   */
  lemma {:induction false} WatchingOnlyDuringPolicedSession(events: seq<ArenaEvent>)
    requires Alternating(events)
    ensures WatcherAfterAll(false, events) <==>
            |events| % 2 == 1 && events[|events| - 1].outOfBounds != OutOfBoundsNone
    decreases |events|
  {
    if |events| > 0 {
      var rest := events[1..];
      if |rest| == 0 {
      } else {
        // after a start and its end the flag is false again
        assert events[1] == Ended;
        var after2 := WatcherAfter(WatcherAfter(false, events[0]), events[1]);
        assert after2 == false;
        var tail := events[2..];
        assert Alternating(tail) by {
          forall k | 0 <= k < |tail| ensures tail[k].Started? <==> k % 2 == 0 {
            assert tail[k] == events[k + 2];
          }
        }
        WatchingOnlyDuringPolicedSession(tail);
        assert WatcherAfterAll(false, events) == WatcherAfterAll(WatcherAfter(false, events[0]), rest);
        assert rest[1..] == tail;
        if |tail| > 0 {
          assert tail[|tail| - 1] == events[|events| - 1];
        }
      }
    }
  }

  /** `ArenaRegion`'s player-watcher flag and the two handlers that set it. */
  class ArenaRegion {
    var isPlayerWatcher: bool

    /** A new region does not watch players (the base region's initial state). */
    constructor ()
      ensures !isPlayerWatcher
    {
      isPlayerWatcher := false;
    }

    /** `onArenaStarted`: watch players when leaving the bounds is policed. */
    method OnArenaStarted(outOfBounds: OutOfBoundsAction)
      modifies this
      ensures isPlayerWatcher == WatcherAfter(old(isPlayerWatcher), Started(outOfBounds))
      ensures outOfBounds != OutOfBoundsNone ==> isPlayerWatcher
    {
      if outOfBounds != OutOfBoundsNone {
        isPlayerWatcher := true;
      }
    }

    /** `onArenaEnded`: stop watching. */
    method OnArenaEnded()
      modifies this
      ensures isPlayerWatcher == WatcherAfter(old(isPlayerWatcher), Ended)
      ensures !isPlayerWatcher
    {
      isPlayerWatcher := false;
    }
  }
}
