/**
 * The event raised after a player leaves an arena (PlayerLeaveArenaEvent.java),
 * with the location the player is to be restored to.
 *
 * Only FORWARDING among the leave reasons matters here; the others are kept
 * by name. The arena, the player and the related context manager are opaque
 * handles, non-null by their types.
 */
module LeaveEvent {
  import opened Wrappers
  import opened Platform

  /** `PlayerLeaveArenaReason`: forwarding to another arena, or any other reason. */
  datatype LeaveReason = Forwarding | OtherReason(name: string)

  type ArenaId = nat
  type PlayerId = nat
  type ContextManagerId = nat

  /** What a getter of the event reports: the stored location when restoring, null when forwarding. */
  function Reported(reason: LeaveReason, stored: Option<Location>): (r: Option<Location>)
    ensures reason.Forwarding? ==> r.None?
    ensures !reason.Forwarding? ==> r == stored
  {
    if reason != Forwarding then stored else None
  }

  class PlayerLeaveArenaEvent {
    const arena: ArenaId
    const player: PlayerId
    const relatedManager: ContextManagerId
    const reason: LeaveReason
    /** `_initialRestoreLocation`; null is `None`. */
    const initialRestoreLocation: Option<Location>
    /** `_restoreLocation`; null is `None`. */
    var restoreLocation: Option<Location>

    /** Both restore locations start as the location given. */
    constructor (arena: ArenaId, player: PlayerId, relatedManager: ContextManagerId,
                 reason: LeaveReason, restoreLocation: Option<Location>)
      ensures this.arena == arena && this.player == player && this.relatedManager == relatedManager
      ensures this.reason == reason
      ensures initialRestoreLocation == restoreLocation && this.restoreLocation == restoreLocation
      ensures GetRestoreLocation() == GetInitialRestoreLocation()
    {
      this.arena := arena;
      this.player := player;
      this.relatedManager := relatedManager;
      this.reason := reason;
      this.initialRestoreLocation := restoreLocation;
      this.restoreLocation := restoreLocation;
    }

    /** `isRestoring`: every reason except forwarding restores the player. */
    predicate IsRestoring()
      ensures IsRestoring() <==> reason != Forwarding
    {
      reason != Forwarding
    }

    /** `getInitialRestoreLocation`: the constructor's location when restoring, null otherwise. */
    function GetInitialRestoreLocation(): (r: Option<Location>)
      ensures IsRestoring() ==> r == initialRestoreLocation
      ensures !IsRestoring() ==> r.None?
    {
      Reported(reason, initialRestoreLocation)
    }

    /** `getRestoreLocation`: the current location when restoring, null otherwise. */
    function GetRestoreLocation(): (r: Option<Location>)
      reads this
      ensures IsRestoring() ==> r == restoreLocation
      ensures !IsRestoring() ==> r.None?
    {
      Reported(reason, restoreLocation)
    }

    /** `setRestoreLocation`: replaces the current location only; the reason and the initial location are constants. */
    method SetRestoreLocation(location: Option<Location>)
      modifies this
      ensures restoreLocation == location
      ensures IsRestoring() ==> GetRestoreLocation() == location
    {
      restoreLocation := location;
    }
  }

  /** A forwarded player is never restored, whatever location is set afterwards. */
  method ForwardingNeverRestores(e: PlayerLeaveArenaEvent, location: Location)
    requires e.reason == Forwarding
    modifies e
    ensures e.GetRestoreLocation() == None && e.GetInitialRestoreLocation() == None
  {
    e.SetRestoreLocation(Some(location));
  }
}
