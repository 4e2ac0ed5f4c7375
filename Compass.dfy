/**
 * Compass.kt, CompassHelper: which player each compass follows. Two pieces of
 * per-player metadata are kept: `tracking`, the player one follows, and `trackers`,
 * the players whose compasses follow one. When a player moves, the compasses of
 * their online trackers are pointed at them.
 * Players are named by their UUIDs; the set of online players (what
 * `server.getPlayer(uuid)` finds) is a parameter.
 */
module Compass {
  import opened Wrappers

  type Uuid = nat

  /** A player location, as far as a compass target needs it. */
  datatype Location = Location(x: int, y: int, z: int)

  /** The compass targets after pointing every player in `ids` at `loc`. */
  function Retarget(targets: map<Uuid, Location>, ids: set<Uuid>, loc: Location): map<Uuid, Location> {
    map id | id in targets.Keys + ids :: if id in ids then loc else targets[id]
  }

  /** Exactly the players in `ids` point at `loc`; every other compass keeps its target. */
  lemma RetargetMeaning(targets: map<Uuid, Location>, ids: set<Uuid>, loc: Location)
    ensures var r := Retarget(targets, ids, loc);
      && (forall id :: id in r <==> id in targets || id in ids)
      && (forall id :: id in ids ==> r[id] == loc)
      && (forall id :: id in targets && id !in ids ==> r[id] == targets[id])
  {
  }

  /** Pointing no one anywhere changes nothing. */
  lemma RetargetNone(targets: map<Uuid, Location>, loc: Location)
    ensures Retarget(targets, {}, loc) == targets
  {
  }

  /** Pointing one more player at `loc` is one more map update. */
  lemma RetargetAdd(targets: map<Uuid, Location>, ids: set<Uuid>, id: Uuid, loc: Location)
    ensures Retarget(targets, ids + {id}, loc) == Retarget(targets, ids, loc)[id := loc]
  {
  }

  /** Handling one more pending player adds it to the handled online players exactly when it is online. */
  lemma HandledStep(all: set<Uuid>, pending: set<Uuid>, id: Uuid, online: set<Uuid>)
    requires id in pending && pending <= all
    ensures (all - (pending - {id})) * online ==
      if id in online then (all - pending) * online + {id} else (all - pending) * online
  {
  }

  /** The two metadata entries of every player. */
  datatype Metadata = Metadata(trackers: map<Uuid, set<Uuid>>, tracking: map<Uuid, Uuid>) {

    /** `compassTrackers`: unset metadata reads as the empty set. */
    function Trackers(p: Uuid): (s: set<Uuid>)
      ensures p !in trackers ==> s == {}
      ensures p in trackers ==> s == trackers[p]
    {
      if p in trackers then trackers[p] else {}
    }

    /** `compassTracking`: unset metadata reads as null. */
    function Tracking(p: Uuid): (t: Option<Uuid>)
      ensures t.None? <==> p !in tracking
      ensures t.Some? ==> t.value == tracking[p]
    {
      if p in tracking then Some(tracking[p]) else None
    }

    /** Every player following someone is among that player's trackers. */
    predicate Consistent() {
      forall p :: p in tracking ==> p in Trackers(tracking[p])
    }
  }

  /** `removeTracker(player, tracker)`: exactly `tracker` leaves `player`'s trackers. */
  function RemoveTrackerOf(m: Metadata, player: Uuid, tracker: Uuid): (r: Metadata)
    ensures r.tracking == m.tracking
    ensures r.Trackers(player) == m.Trackers(player) - {tracker} && player in r.trackers
    ensures forall p :: p != player ==> r.Trackers(p) == m.Trackers(p) && (p in r.trackers <==> p in m.trackers)
  {
    m.(trackers := m.trackers[player := m.Trackers(player) - {tracker}])
  }

  /**
   * `removeTracking(player)`: nothing happens when the player follows no one or the
   * one they follow is offline; otherwise they stop following and leave that
   * player's trackers.
   */
  function RemoveTrackingOf(m: Metadata, player: Uuid, online: set<Uuid>): (r: Metadata)
    ensures m.Tracking(player).None? || m.tracking[player] !in online ==> r == m
    ensures m.Tracking(player).Some? && m.tracking[player] in online ==>
      && r.tracking == m.tracking - {player}
      && r == RemoveTrackerOf(m.(tracking := r.tracking), m.tracking[player], player)
  {
    if player !in m.tracking || m.tracking[player] !in online then m
    else RemoveTrackerOf(m.(tracking := m.tracking - {player}), m.tracking[player], player)
  }

  /** Stopping to follow keeps every remaining follower among their target's trackers. */
  lemma RemoveTrackingConsistent(m: Metadata, player: Uuid, online: set<Uuid>)
    requires m.Consistent()
    ensures RemoveTrackingOf(m, player, online).Consistent()
  {
    var r := RemoveTrackingOf(m, player, online);
    if player in m.tracking && m.tracking[player] in online {
      forall p | p in r.tracking ensures p in r.Trackers(r.tracking[p]) {
        assert p != player && r.tracking[p] == m.tracking[p];
        assert p in m.Trackers(m.tracking[p]);
      }
    }
  }

  /**
   * `setTracking(player, playerToTrack)` as written: after `removeTracking` the player
   * follows the target, and the target's own id joins the target's trackers.
   */
  function SetTrackingAsWrittenOf(m: Metadata, player: Uuid, playerToTrack: Option<Uuid>, online: set<Uuid>): (r: Metadata)
    ensures playerToTrack.None? ==> r == RemoveTrackingOf(m, player, online)
    ensures playerToTrack.Some? ==> var q := playerToTrack.value;
      && r.Tracking(player) == Some(q)
      && r.Trackers(q) == RemoveTrackingOf(m, player, online).Trackers(q) + {q}
      && forall p :: p != q ==> r.Trackers(p) == RemoveTrackingOf(m, player, online).Trackers(p)
  {
    var cleared := RemoveTrackingOf(m, player, online);
    match playerToTrack
    case None => cleared
    case Some(q) => Metadata(cleared.trackers[q := cleared.Trackers(q) + {q}], cleared.tracking[player := q])
  }

  /** As written, following another player leaves the follower out of their trackers. */
  lemma SetTrackingAsWrittenInconsistent(player: Uuid, q: Uuid, online: set<Uuid>)
    requires player != q
    ensures var r := SetTrackingAsWrittenOf(Metadata(map[], map[]), player, Some(q), online);
      Metadata(map[], map[]).Consistent() && r.Tracking(player) == Some(q) && player !in r.Trackers(q) && !r.Consistent()
  {
    var r := SetTrackingAsWrittenOf(Metadata(map[], map[]), player, Some(q), online);
    assert player in r.tracking;
  }

  /** `setTracking(player, playerToTrack)`, adding the follower to the target's trackers. */
  function SetTrackingOf(m: Metadata, player: Uuid, playerToTrack: Option<Uuid>, online: set<Uuid>): (r: Metadata)
    ensures playerToTrack.None? ==> r == RemoveTrackingOf(m, player, online)
    ensures playerToTrack.Some? ==> var q := playerToTrack.value;
      && r.Tracking(player) == Some(q)
      && r.Trackers(q) == RemoveTrackingOf(m, player, online).Trackers(q) + {player}
      && forall p :: p != q ==> r.Trackers(p) == RemoveTrackingOf(m, player, online).Trackers(p)
  {
    var cleared := RemoveTrackingOf(m, player, online);
    match playerToTrack
    case None => cleared
    case Some(q) => Metadata(cleared.trackers[q := cleared.Trackers(q) + {player}], cleared.tracking[player := q])
  }

  /** Corrected, following keeps every follower among their target's trackers. */
  lemma SetTrackingConsistent(m: Metadata, player: Uuid, playerToTrack: Option<Uuid>, online: set<Uuid>)
    requires m.Consistent()
    ensures SetTrackingOf(m, player, playerToTrack, online).Consistent()
  {
    RemoveTrackingConsistent(m, player, online);
    var cleared := RemoveTrackingOf(m, player, online);
    var r := SetTrackingOf(m, player, playerToTrack, online);
    if playerToTrack.Some? {
      var q := playerToTrack.value;
      forall p | p in r.tracking ensures p in r.Trackers(r.tracking[p]) {
        if p != player {
          assert p in cleared.tracking && r.tracking[p] == cleared.tracking[p];
          assert p in cleared.Trackers(cleared.tracking[p]);
        }
      }
    }
  }

  class CompassHelper {
    /** KEY_TRACKERS metadata, for the players that have it. */
    var trackers: map<Uuid, set<Uuid>>
    /** KEY_TRACKING metadata, for the players that have it. */
    var tracking: map<Uuid, Uuid>
    /** Each player's `compassTarget`, for the players whose target was set here. */
    var compassTarget: map<Uuid, Location>

    function Meta(): Metadata
      reads this
    {
      Metadata(trackers, tracking)
    }

    constructor ()
      ensures Meta() == Metadata(map[], map[]) && compassTarget == map[]
    {
      trackers := map[];
      tracking := map[];
      compassTarget := map[];
    }

    method RemoveTracker(player: Uuid, tracker: Uuid)
      modifies this
      ensures Meta() == RemoveTrackerOf(old(Meta()), player, tracker)
      ensures compassTarget == old(compassTarget)
    {
      trackers := trackers[player := Meta().Trackers(player) - {tracker}];
    }

    method RemoveTracking(player: Uuid, online: set<Uuid>)
      modifies this
      ensures Meta() == RemoveTrackingOf(old(Meta()), player, online)
      ensures compassTarget == old(compassTarget)
    {
      var trackingPlayer := Meta().Tracking(player);
      if trackingPlayer.None? || trackingPlayer.value !in online {
        return;
      }
      tracking := tracking - {player};
      RemoveTracker(trackingPlayer.value, player);
    }

    method SetTrackingAsWritten(player: Uuid, playerToTrack: Option<Uuid>, online: set<Uuid>)
      modifies this
      ensures Meta() == SetTrackingAsWrittenOf(old(Meta()), player, playerToTrack, online)
      ensures compassTarget == old(compassTarget)
    {
      RemoveTracking(player, online);
      if playerToTrack.None? {
        return;
      }
      var q := playerToTrack.value;
      tracking := tracking[player := q];
      trackers := trackers[q := Meta().Trackers(q) + {q}];
    }

    method SetTracking(player: Uuid, playerToTrack: Option<Uuid>, online: set<Uuid>)
      modifies this
      ensures Meta() == SetTrackingOf(old(Meta()), player, playerToTrack, online)
      ensures compassTarget == old(compassTarget)
    {
      RemoveTracking(player, online);
      if playerToTrack.None? {
        return;
      }
      var q := playerToTrack.value;
      tracking := tracking[player := q];
      trackers := trackers[q := Meta().Trackers(q) + {player}];
    }

    /** `updateCompass(event)`: point every online tracker of `mover` at `location`. */
    method UpdateCompass(mover: Uuid, location: Location, online: set<Uuid>)
      modifies this
      ensures compassTarget == Retarget(old(compassTarget), old(Meta().Trackers(mover)) * online, location)
      ensures Meta() == old(Meta())
    {
      var pending := Meta().Trackers(mover);
      ghost var all := pending;
      var targets := compassTarget;
      RetargetNone(compassTarget, location);
      while pending != {}
        invariant pending <= all
        invariant targets == Retarget(compassTarget, (all - pending) * online, location)
        modifies {}
        decreases pending
      {
        var id :| id in pending;
        HandledStep(all, pending, id, online);
        if id in online {
          RetargetAdd(compassTarget, (all - pending) * online, id, location);
          targets := targets[id := location];
        }
        pending := pending - {id};
      }
      assert all - pending == all;
      compassTarget := targets;
    }
  }

  /**
   * With `setTracking` as written, player 1 following player 2 is not among player 2's
   * trackers, so when player 2 moves, player 1's compass stays where it was.
   */
  method FollowerNotUpdated() returns (h: CompassHelper)
    ensures h.Meta().Tracking(1) == Some(2) && 1 !in h.Meta().Trackers(2) && !h.Meta().Consistent()
    ensures 1 !in h.compassTarget
  {
    h := new CompassHelper();
    h.SetTrackingAsWritten(1, Some(2), {1, 2});
    h.UpdateCompass(2, Location(0, 64, 0), {1, 2});
    RetargetMeaning(map[], {}, Location(0, 64, 0));
  }

  /** Corrected, the same steps point player 1's compass at player 2. */
  method FollowerUpdated() returns (h: CompassHelper)
    ensures h.Meta().Tracking(1) == Some(2) && 1 in h.Meta().Trackers(2) && h.Meta().Consistent()
    ensures 1 in h.compassTarget && h.compassTarget[1] == Location(0, 64, 0)
  {
    h := new CompassHelper();
    h.SetTracking(1, Some(2), {1, 2});
    h.UpdateCompass(2, Location(0, 64, 0), {1, 2});
    RetargetMeaning(map[], {1}, Location(0, 64, 0));
  }
}
