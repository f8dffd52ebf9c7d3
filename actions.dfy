/** The per-unit decisions: what a worker does (WorkerAction), what a warrior
    in combat does (WarriorAction with its friendly-fire loop) and how a
    warrior without opponents in view moves (the two branches of MoveWarrior). */
module Actions {
  import opened LiaApi

  /** Some command sends the unit home with the flee flag. */
  predicate Flees(cs: seq<Command>)
  {
    exists c :: c in cs && c.NavigationStart? && c.flee
  }

  /** Some command sends the unit somewhere without the flee flag. */
  predicate NavigatesCalmly(cs: seq<Command>)
  {
    exists c :: c in cs && c.NavigationStart? && !c.flee
  }

  /** The callout of HealthIsLower: "Health is <h>" when the health dropped. */
  function HealthCallout(unit: UnitData, healthIsLower: bool): (cs: seq<Command>)
    ensures AllAddress(cs, unit.id)
    ensures |cs| == 1 <==> healthIsLower
    ensures |cs| <= 1
    ensures forall c :: c in cs ==> c == SaySomething(unit.id, HealthReport(unit.health))
  {
    if healthIsLower then [SaySomething(unit.id, HealthReport(unit.health))] else []
  }

  /** Lines 179-199. A threatened or damaged worker shouts and flees to the
      spawn point; otherwise it heads for the first resource it sees;
      otherwise it wanders off only if it has no path to follow. */
  function WorkerAction(cfg: Config, unit: UnitData, anyOpponentIsLookingWorker: bool, healthIsLower: bool): (cs: seq<Command>)
    ensures AllAddress(cs, unit.id) && |cs| <= 2
    ensures Flees(cs) <==> anyOpponentIsLookingWorker || healthIsLower
    ensures Flees(cs) ==> cs == [SaySomething(unit.id, RunAway), NavigationStart(unit.id, cfg.spawn.x, cfg.spawn.y, true)]
    ensures NavigatesCalmly(cs) <==> !(anyOpponentIsLookingWorker || healthIsLower) && |unit.resourcesInView| > 0
    ensures forall c :: c in cs && c.NavigationStart? && !c.flee ==>
      c.x == unit.resourcesInView[0].x && c.y == unit.resourcesInView[0].y
    ensures Wander(unit.id) in cs <==>
      !(anyOpponentIsLookingWorker || healthIsLower) && |unit.resourcesInView| == 0 && |unit.navigationPath| == 0
    ensures cs == [] <==>
      !(anyOpponentIsLookingWorker || healthIsLower) && |unit.resourcesInView| == 0 && |unit.navigationPath| > 0
    ensures !(anyOpponentIsLookingWorker || healthIsLower) ==> |cs| <= 1
  {
    if anyOpponentIsLookingWorker || healthIsLower then
      var cs := [SaySomething(unit.id, RunAway), NavigationStart(unit.id, cfg.spawn.x, cfg.spawn.y, true)];
      assert cs[1] in cs;
      cs
    else if |unit.resourcesInView| > 0 then
      var resource := unit.resourcesInView[0];
      var cs := [NavigationStart(unit.id, resource.x, resource.y, false)];
      assert cs[0] in cs;
      cs
    else if |unit.navigationPath| == 0 then
      [Wander(unit.id)]
    else
      []
  }

  /** The angle between the warrior's facing and its target. */
  function AimAngle(geo: Geometry, unit: UnitData, opponent: OpponentInView): real
  {
    geo.angle(PoseOf(unit), opponent.x, opponent.y)
  }

  /** Lines 243-275, with the health check and the friendly-fire verdict taken
      as inputs. The warrior always stops first. A damaged warrior turns right.
      Otherwise it turns toward the target when the aim is off by more than 5
      degrees, slowly when the target faces it to within 15 degrees; and when
      aimed, ready and clear, it taunts and fires. */
  function WarriorAction(geo: Geometry, unit: UnitData, opponent: OpponentInView, targetAngle: real,
                         healthIsLower: bool, shouldShoot: bool): (cs: seq<Command>)
    ensures AllAddress(cs, unit.id) && 1 <= |cs| <= 3
    ensures cs[0] == NavigationStop(unit.id)
    ensures var aim := AimAngle(geo, unit, opponent);
      && (Shoot(unit.id) in cs <==> !healthIsLower && -5.0 <= aim <= 5.0 && unit.canShoot && shouldShoot)
      && (SetRotation(unit.id, Right) in cs <==> healthIsLower || (aim < -5.0 && Abs(targetAngle) > 15.0))
      && (SetRotation(unit.id, SlowRight) in cs <==> !healthIsLower && aim < -5.0 && Abs(targetAngle) <= 15.0)
      && (SetRotation(unit.id, Left) in cs <==> !healthIsLower && aim > 5.0 && Abs(targetAngle) > 15.0)
      && (SetRotation(unit.id, SlowLeft) in cs <==> !healthIsLower && aim > 5.0 && Abs(targetAngle) <= 15.0)
    ensures !(Shoot(unit.id) in cs && exists c :: c in cs && c.SetRotation?)
    ensures healthIsLower ==>
      cs == [NavigationStop(unit.id), SaySomething(unit.id, HealthReport(unit.health)), SetRotation(unit.id, Right)]
    ensures !healthIsLower && Shoot(unit.id) in cs ==>
      cs == [NavigationStop(unit.id), SaySomething(unit.id, Taunt), Shoot(unit.id)]
    ensures !healthIsLower && Shoot(unit.id) !in cs ==>
      |cs| <= 2 && forall k :: 1 <= k < |cs| ==> cs[k].SetRotation?
    ensures var aim := AimAngle(geo, unit, opponent);
      !healthIsLower && -5.0 <= aim <= 5.0 && !(unit.canShoot && shouldShoot) ==> cs == [NavigationStop(unit.id)]
  {
    var aimAngle := AimAngle(geo, unit, opponent);
    var id := unit.id;
    var action :=
      if healthIsLower then [SetRotation(id, Right)]
      else if aimAngle < -5.0 then [SetRotation(id, if Abs(targetAngle) > 15.0 then Right else SlowRight)]
      else if aimAngle > 5.0 then [SetRotation(id, if Abs(targetAngle) > 15.0 then Left else SlowLeft)]
      else if unit.canShoot && shouldShoot then [SaySomething(id, Taunt), Shoot(id)]
      else [];
    [NavigationStop(id)] + HealthCallout(unit, healthIsLower) + action
  }

  /** The last unit in the list that is not the given one. */
  function LastOther(units: seq<UnitData>, id: int): Option<UnitData>
  {
    if units == [] then None
    else if units[|units| - 1].id != id then Some(units[|units| - 1])
    else LastOther(units[..|units| - 1], id)
  }

  /** The friendly-fire verdict as the loop computes it: decided by the last
      other unit alone. */
  function ClearToFire(geo: Geometry, unit: UnitData, units: seq<UnitData>): bool
  {
    match LastOther(units, unit.id)
    case None => true
    case Some(o) => Abs(geo.angle(PoseOf(unit), o.x, o.y)) > 5.0
  }

  lemma {:induction false} LastOtherSpec(units: seq<UnitData>, id: int)
    ensures LastOther(units, id).None? <==> forall k :: 0 <= k < |units| ==> units[k].id == id
    ensures var r := LastOther(units, id);
      r.Some? ==> exists k :: 0 <= k < |units| && units[k] == r.value && r.value.id != id &&
                    forall m :: k < m < |units| ==> units[m].id == id
  {
    if units != [] {
      var n := |units| - 1;
      if units[n].id == id {
        var init := units[..n];
        LastOtherSpec(init, id);
        assert forall k :: 0 <= k < n ==> init[k] == units[k];
        var r := LastOther(init, id);
        if r.Some? {
          var k :| 0 <= k < n && init[k] == r.value && r.value.id != id &&
                   forall m :: k < m < n ==> init[m].id == id;
          assert units[k] == r.value;
        }
      } else {
        assert LastOther(units, id) == Some(units[n]);
      }
    }
  }

  /** Lines 262-268: the flag starts true and every other unit overwrites it,
      so only the last other unit in the list decides. */
  method LineOfFireClear(geo: Geometry, unit: UnitData, units: seq<UnitData>) returns (shouldShoot: bool)
    ensures shouldShoot == ClearToFire(geo, unit, units)
  {
    shouldShoot := true;
    for i := 0 to |units|
      invariant shouldShoot == ClearToFire(geo, unit, units[..i])
    {
      assert units[..i + 1][..i] == units[..i];
      var otherUnit := units[i];
      if otherUnit.id == unit.id {
        continue;
      }
      shouldShoot := Abs(geo.angle(PoseOf(unit), otherUnit.x, otherUnit.y)) > 5.0;
    }
    assert units[..|units|] == units;
  }

  /** A friendly unit dead ahead is ignored whenever another friendly unit
      stands later in the list: the verdict depends on the last one only. */
  lemma FriendlyFireLastDecides(geo: Geometry, unit: UnitData, units: seq<UnitData>, other: UnitData)
    requires other.id != unit.id
    ensures ClearToFire(geo, unit, units + [other]) == (Abs(geo.angle(PoseOf(unit), other.x, other.y)) > 5.0)
  {
    assert (units + [other])[|units|] == other;
  }

  /** A friendly worker that the follow loop accepts: closer than 9999. */
  predicate Followable(geo: Geometry, unit: UnitData, w: UnitData)
  {
    w.utype == Worker && geo.distance(unit.x, unit.y, w.x, w.y) < 9999.0
  }

  /** The worker the follow loop ends with: the LAST followable one, because
      the loop never lowers its bound of 9999. */
  function LastFollowable(geo: Geometry, unit: UnitData, units: seq<UnitData>): Option<UnitData>
  {
    if units == [] then None
    else if Followable(geo, unit, units[|units| - 1]) then Some(units[|units| - 1])
    else LastFollowable(geo, unit, units[..|units| - 1])
  }

  lemma {:induction false} LastFollowableSpec(geo: Geometry, unit: UnitData, units: seq<UnitData>)
    ensures LastFollowable(geo, unit, units).None? <==>
      forall k :: 0 <= k < |units| ==> !Followable(geo, unit, units[k])
    ensures var r := LastFollowable(geo, unit, units);
      r.Some? ==> exists k :: 0 <= k < |units| && units[k] == r.value && Followable(geo, unit, r.value) &&
                    forall m :: k < m < |units| ==> !Followable(geo, unit, units[m])
  {
    if units != [] && !Followable(geo, unit, units[|units| - 1]) {
      var init := units[..|units| - 1];
      LastFollowableSpec(geo, unit, init);
      assert forall k :: 0 <= k < |init| ==> init[k] == units[k];
    }
  }

  /** Of two followable workers, the later one is followed even when the
      earlier one is strictly nearer. */
  lemma FollowPicksLastNotNearest(geo: Geometry, unit: UnitData, near: UnitData, far: UnitData)
    requires Followable(geo, unit, near) && Followable(geo, unit, far)
    requires geo.distance(unit.x, unit.y, near.x, near.y) < geo.distance(unit.x, unit.y, far.x, far.y)
    ensures LastFollowable(geo, unit, [near, far]) == Some(far)
  {
  }

  /** Lines 91-101. */
  method PickWorkerToFollow(geo: Geometry, unit: UnitData, units: seq<UnitData>) returns (workerToFollow: Option<UnitData>)
    ensures workerToFollow == LastFollowable(geo, unit, units)
  {
    var shortestDistance := 9999.0;
    workerToFollow := None;
    for i := 0 to |units|
      invariant workerToFollow == LastFollowable(geo, unit, units[..i])
    {
      assert units[..i + 1][..i] == units[..i];
      var worker := units[i];
      if worker.utype != Worker {
        continue;
      }
      var curDistance := geo.distance(unit.x, unit.y, worker.x, worker.y);
      if curDistance < shortestDistance {
        workerToFollow := Some(worker);
      }
    }
    assert units[..|units|] == units;
  }

  /** The corner coordinate on one axis: the offset from the low edge when the
      spawn point lies in the low half of that axis, from the high edge otherwise. */
  function CornerCoordinate(spawnCoordinate: real, size: int, rngPos: int): int
  {
    if spawnCoordinate < HalfOf(size) as real then rngPos else size - 1 - rngPos
  }

  /** The exact map corner of the own spawn quadrant. */
  function HomeCorner(cfg: Config): Point
  {
    Point(CornerCoordinate(cfg.spawn.x, cfg.mapWidth, 0) as real, CornerCoordinate(cfg.spawn.y, cfg.mapHeight, 0) as real)
  }

  /** The spawn point lies in the lower half of the map. */
  predicate BottomSpawn(cfg: Config)
  {
    cfg.spawn.y < HalfOf(cfg.mapHeight) as real
  }

  /** The top-right cell of the map. */
  function FarCorner(cfg: Config): Point
  {
    Point((cfg.mapWidth - 1) as real, (cfg.mapHeight - 1) as real)
  }

  /** The corner a guard measures its distance to: (0, 0) for a bottom spawn,
      the top-right cell otherwise. */
  function HeldCorner(cfg: Config): Point
  {
    if BottomSpawn(cfg) then Point(0.0, 0.0) else FarCorner(cfg)
  }

  /** The corner a guard watches: the opposite one. */
  function WatchedCorner(cfg: Config): Point
  {
    if BottomSpawn(cfg) then FarCorner(cfg) else Point(0.0, 0.0)
  }

  function CornerDistance(cfg: Config, geo: Geometry, unit: UnitData): real
  {
    geo.distance(unit.x, unit.y, HeldCorner(cfg).x, HeldCorner(cfg).y)
  }

  function WatchAngle(cfg: Config, geo: Geometry, unit: UnitData): real
  {
    geo.angle(PoseOf(unit), WatchedCorner(cfg).x, WatchedCorner(cfg).y)
  }

  /** Lines 73-89: a guard that is more than 6 from its corner and standing
      still heads for a cell near its home corner; else, standing still and
      looking more than 10 degrees away from the watched corner, it turns
      right; else, looking within 10 degrees, it stops and holds; else it does
      nothing (exactly 10 degrees off, or moving while looking away). */
  function GuardMove(cfg: Config, geo: Geometry, unit: UnitData, rngPos: int): (cs: seq<Command>)
    requires 0 <= rngPos < 5
    ensures AllAddress(cs, unit.id) && |cs| <= 2
    ensures var far := CornerDistance(cfg, geo, unit) > 6.0;
            var look := Abs(WatchAngle(cfg, geo, unit));
            var still := unit.speed == SpeedNone;
      && (|cs| == 1 && cs[0].NavigationStart? <==> far && still)
      && (cs == [SetRotation(unit.id, Right)] <==> !far && still && look > 10.0)
      && (cs == [NavigationStop(unit.id), SetSpeed(unit.id, SpeedNone)] <==> !(far && still) && look < 10.0)
      && (cs == [] <==> !(far && still) && (look == 10.0 || (look > 10.0 && !still)))
    ensures forall c :: c in cs && c.NavigationStart? ==>
      && !c.flee
      && Abs(c.x - HomeCorner(cfg).x) == Abs(c.y - HomeCorner(cfg).y) == rngPos as real
      && (cfg.mapWidth >= 5 && cfg.mapHeight >= 5 ==>
            0.0 <= c.x <= (cfg.mapWidth - 1) as real && 0.0 <= c.y <= (cfg.mapHeight - 1) as real)
  {
    if CornerDistance(cfg, geo, unit) > 6.0 && unit.speed == SpeedNone then
      var xPos := CornerCoordinate(cfg.spawn.x, cfg.mapWidth, rngPos);
      var yPos := CornerCoordinate(cfg.spawn.y, cfg.mapHeight, rngPos);
      [NavigationStart(unit.id, xPos as real, yPos as real, false)]
    else if Abs(WatchAngle(cfg, geo, unit)) > 10.0 && unit.speed == SpeedNone then
      [SetRotation(unit.id, Right)]
    else if Abs(WatchAngle(cfg, geo, unit)) < 10.0 then
      [NavigationStop(unit.id), SetSpeed(unit.id, SpeedNone)]
    else
      []
  }

  /** The point three cells beyond the worker on both axes, or three cells
      short of it where beyond would leave the map. */
  function FollowPoint(cfg: Config, w: UnitData): Point
  {
    Point(if w.x + 3.0 > cfg.mapWidth as real then w.x - 3.0 else w.x + 3.0,
          if w.y + 3.0 > cfg.mapHeight as real then w.y - 3.0 else w.y + 3.0)
  }

  /** Lines 103-125. Without a worker to follow the warrior wanders. With one,
      the warrior goes to the follow point only when MAP marks that cell as an
      obstacle, and to the spawn point when the cell is free. */
  function FollowMove(cfg: Config, unit: UnitData, workerToFollow: Option<UnitData>): (cs: seq<Command>)
    ensures AllAddress(cs, unit.id) && |cs| == 1
    ensures workerToFollow.None? <==> cs == [Wander(unit.id)]
    ensures workerToFollow.Some? ==>
      var w := workerToFollow.value;
      var c := cs[0];
      && c.NavigationStart? && !c.flee
      && ((Abs(c.x - w.x) == 3.0 && Abs(c.y - w.y) == 3.0 && cfg.obstacle(TruncToInt(c.x), TruncToInt(c.y)))
          || (c.x == cfg.spawn.x && c.y == cfg.spawn.y))
      && (cfg.obstacle(TruncToInt(FollowPoint(cfg, w).x), TruncToInt(FollowPoint(cfg, w).y))
          ==> c.x == FollowPoint(cfg, w).x && c.y == FollowPoint(cfg, w).y)
      && (!cfg.obstacle(TruncToInt(FollowPoint(cfg, w).x), TruncToInt(FollowPoint(cfg, w).y))
          ==> c.x == cfg.spawn.x && c.y == cfg.spawn.y)
  {
    match workerToFollow
    case None => [Wander(unit.id)]
    case Some(w) =>
      var p := FollowPoint(cfg, w);
      if !cfg.obstacle(TruncToInt(p.x), TruncToInt(p.y)) then
        [NavigationStart(unit.id, cfg.spawn.x, cfg.spawn.y, false)]
      else
        [NavigationStart(unit.id, p.x, p.y, false)]
  }
}
