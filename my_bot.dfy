/** The bot object: the two lists it keeps between ticks and the tick itself
    (MyBot.java). */
module LiaBot {
  import opened LiaApi
  import opened UnitLists
  import opened Economy
  import opened Targeting
  import opened Actions

  class MyBot {
    /** The last snapshot seen of every unit ever processed, one per id. */
    var previousUpdateUnits: seq<UnitData>
    /** The warriors on guard duty, at most two. */
    var guardBots: seq<UnitData>

    ghost predicate Valid()
      reads this
    {
      UniqueIds(previousUpdateUnits) && UniqueIds(guardBots) && |guardBots| <= 2
    }

    constructor ()
      ensures Valid() && previousUpdateUnits == [] && guardBots == []
    {
      previousUpdateUnits := [];
      guardBots := [];
    }

    /** Lines 154-169: the health dropped iff an entry for the unit's id is
        stored and holds a higher health; the bot then says so. Nothing is changed. */
    method HealthIsLower(unit: UnitData) returns (healthIsLower: bool, said: seq<Command>)
      requires Valid()
      ensures healthIsLower <==> HealthDropped(previousUpdateUnits, unit)
      ensures unit.id !in IdsOf(previousUpdateUnits) ==> !healthIsLower
      ensures said == HealthCallout(unit, healthIsLower)
    {
      healthIsLower := false;
      var existingUnit := FindById(previousUpdateUnits, unit.id);
      if existingUnit.Some? {
        healthIsLower := existingUnit.value.health > unit.health;
        forall e | e in previousUpdateUnits && e.id == unit.id
          ensures e == existingUnit.value
        {
          FindByIdUnique(previousUpdateUnits, e);
        }
      }
      said := HealthCallout(unit, healthIsLower);
    }

    /** Lines 171-177: drop the entries with the unit's id and append the unit. */
    method UpdatePreviousUnit(unit: UnitData)
      requires Valid()
      modifies this`previousUpdateUnits
      ensures Valid()
      ensures previousUpdateUnits == RemoveId(old(previousUpdateUnits), unit.id) + [unit]
      ensures forall id :: (EntriesFor(previousUpdateUnits, id) ==
                            if id == unit.id then [unit] else EntriesFor(old(previousUpdateUnits), id))
    {
      var currentUnitId := unit.id;
      previousUpdateUnits := RemoveId(previousUpdateUnits, currentUnitId);
      UniqueDrop(old(previousUpdateUnits), {currentUnitId});
      DropIdsMembers(old(previousUpdateUnits), {currentUnitId});
      UniqueAppend(previousUpdateUnits, unit);
      previousUpdateUnits := previousUpdateUnits + [unit];
      forall id
        ensures EntriesFor(previousUpdateUnits, id) ==
          if id == unit.id then [unit] else EntriesFor(old(previousUpdateUnits), id)
      {
        RecordEntries(old(previousUpdateUnits), unit, id);
      }
    }

    /** Lines 145-152: a unit that is not yet a guard joins while fewer than two guard. */
    method AssignGuardBot(unit: UnitData)
      requires Valid()
      modifies this`guardBots
      ensures Valid()
      ensures guardBots == WithGuard(old(guardBots), unit)
    {
      var currentUnitId := unit.id;
      var existingUnit := FindById(guardBots, currentUnitId);
      if existingUnit.None? && |guardBots| < 2 {
        UniqueAppend(guardBots, unit);
        guardBots := guardBots + [unit];
      }
    }

    /** Lines 129-143: collect the guards whose id is missing from the
        snapshot, then remove every guard with a collected id. */
    method RemoveDeadGuardBots(units: seq<UnitData>)
      requires Valid()
      modifies this`guardBots
      ensures Valid()
      ensures guardBots == KeepIds(old(guardBots), IdsOf(units))
    {
      var removeGuards := CollectDeadGuards(guardBots, units);
      RemovalLeavesLiveGuards(guardBots, removeGuards, units);
      RemoveCollectedGuards(removeGuards);
    }

    /** Lines 140-142: `removeIf` on the register for every collected guard. */
    method RemoveCollectedGuards(removeGuards: seq<UnitData>)
      modifies this`guardBots
      ensures guardBots == DropIds(old(guardBots), IdsOf(removeGuards))
    {
      ghost var guards := guardBots;
      assert IdsOf(removeGuards[..0]) == {};
      DropNoIds(guards);
      for k := 0 to |removeGuards|
        invariant guardBots == DropIds(guards, IdsOf(removeGuards[..k]))
      {
        IdsOfPrefixStep(removeGuards, k);
        DropDrop(guards, IdsOf(removeGuards[..k]), {removeGuards[k].id});
        guardBots := RemoveId(guardBots, removeGuards[k].id);
      }
      assert removeGuards[..|removeGuards|] == removeGuards;
    }

    /** Lines 71-127: a guard holds its corner; any other warrior follows a worker. */
    method MoveWarrior(unit: UnitData, cfg: Config, geo: Geometry, units: seq<UnitData>, rngPos: int)
      returns (cmds: seq<Command>)
      requires 0 <= rngPos < 5
      ensures cmds == if unit.id in IdsOf(guardBots) then GuardMove(cfg, geo, unit, rngPos)
                      else FollowMove(cfg, unit, LastFollowable(geo, unit, units))
    {
      if FindById(guardBots, unit.id).Some? {
        cmds := GuardMove(cfg, geo, unit, rngPos);
      } else {
        var workerToFollow := PickWorkerToFollow(geo, unit, units);
        cmds := FollowMove(cfg, unit, workerToFollow);
      }
    }

    /** Lines 43-65: what one unit of the snapshot does this tick. A worker
        checks for threats and damage and acts; a warrior with opponents in
        view picks and claims a target and fights; a warrior without may be
        made a guard and then moves. */
    method ActUnit(unit: UnitData, units: seq<UnitData>, targetOpponents: seq<OpponentInView>,
                   cfg: Config, geo: Geometry, rngPos: int)
      returns (unitCmds: seq<Command>, claimed: seq<OpponentInView>)
      requires Valid()
      requires 0 <= rngPos < 5
      modifies this`guardBots
      ensures Valid()
      ensures unitCmds == UnitCommands(cfg, geo, units, unit, HealthDropped(previousUpdateUnits, unit),
                                       old(guardBots), targetOpponents, rngPos)
      ensures guardBots == GuardsStep(old(guardBots), unit)
      ensures claimed == ClaimsStep(targetOpponents, unit)
    {
      unitCmds := [];
      claimed := targetOpponents;

      if unit.utype == Worker {
        var anyOpponentIsLookingWorker := OpponentIsLooking(geo, unit);
        var healthIsLower, said := HealthIsLower(unit);
        unitCmds := said + WorkerAction(cfg, unit, anyOpponentIsLookingWorker, healthIsLower);
      }

      if unit.utype == Warrior {
        if |unit.opponentsInView| > 0 {
          var opponent := DetermineOpponent(unit, claimed);
          claimed := claimed + [opponent];
          var opponentAngle := OpponentLookAngle(geo, opponent, unit);
          // The callout is issued inside WarriorAction, after the stop (lines 245-247).
          var healthIsLower, _ := HealthIsLower(unit);
          var shouldShoot := LineOfFireClear(geo, unit, units);
          unitCmds := WarriorAction(geo, unit, opponent, opponentAngle, healthIsLower, shouldShoot);
        } else {
          AssignGuardBot(unit);
          unitCmds := MoveWarrior(unit, cfg, geo, units, rngPos);
        }
      }
    }

    /** Lines 42-68, one round of the loop: unit i acts, then its snapshot is
        recorded. The tick's commands, guards, claims and memory advance by
        that unit's step. */
    method ProcessUnit(units: seq<UnitData>, i: nat, targetOpponents: seq<OpponentInView>, cfg: Config, geo: Geometry,
                       offsets: seq<int>, ghost memory0: seq<UnitData>, ghost guards0: seq<UnitData>)
      returns (unitCmds: seq<Command>, claimed: seq<OpponentInView>)
      requires Valid()
      requires i < |units| == |offsets|
      requires forall k :: 0 <= k < |offsets| ==> 0 <= offsets[k] < 5
      requires guardBots == GuardsAfter(guards0, units[..i]) && targetOpponents == ClaimsAfter(units[..i])
      requires forall id :: EntriesFor(previousUpdateUnits, id) == Remembered(memory0, units[..i], id)
      modifies this`guardBots, this`previousUpdateUnits
      ensures Valid()
      ensures TickCommands(cfg, geo, units, memory0, guards0, offsets, i + 1) ==
              TickCommands(cfg, geo, units, memory0, guards0, offsets, i) + unitCmds
      ensures AllAddress(unitCmds, units[i].id)
      ensures guardBots == GuardsAfter(guards0, units[..i + 1]) && claimed == ClaimsAfter(units[..i + 1])
      ensures forall g :: g in old(guardBots) ==> g in guardBots
      ensures forall g :: g in guardBots ==> g in old(guardBots) || g == units[i]
      ensures forall id :: EntriesFor(previousUpdateUnits, id) == Remembered(memory0, units[..i + 1], id)
    {
      var unit := units[i];
      DamagedAgrees(memory0, units, i, previousUpdateUnits);
      TickStep(cfg, geo, units, memory0, guards0, offsets, i, HealthDropped(previousUpdateUnits, unit), guardBots, targetOpponents);
      GuardsStepMembers(guardBots, unit);
      unitCmds, claimed := ActUnit(unit, units, targetOpponents, cfg, geo, offsets[i]);
      ghost var before := previousUpdateUnits;
      UpdatePreviousUnit(unit);
      MemoryStep(memory0, units, i, before);
    }

    /** Lines 42-68: every unit of the snapshot in order, starting with no
        claims. */
    method RunUnits(units: seq<UnitData>, cfg: Config, geo: Geometry, offsets: seq<int>) returns (cmds: seq<Command>)
      requires Valid()
      requires |offsets| == |units|
      requires forall i :: 0 <= i < |offsets| ==> 0 <= offsets[i] < 5
      modifies this`guardBots, this`previousUpdateUnits
      ensures Valid()
      ensures cmds == TickCommands(cfg, geo, units, old(previousUpdateUnits), old(guardBots), offsets, |units|)
      ensures forall k :: 0 <= k < |cmds| ==> !cmds[k].Spawn? && cmds[k].unitId in IdsOf(units)
      ensures guardBots == GuardsAfter(old(guardBots), units)
      ensures forall g :: g in old(guardBots) ==> g in guardBots
      ensures forall g :: g in guardBots ==> g in old(guardBots) || g in units
      ensures forall id :: EntriesFor(previousUpdateUnits, id) == Remembered(old(previousUpdateUnits), units, id)
    {
      var targetOpponents: seq<OpponentInView> := [];
      cmds := [];
      ghost var guards0 := guardBots;
      ghost var memory0 := previousUpdateUnits;

      for i := 0 to |units|
        invariant Valid()
        invariant cmds == TickCommands(cfg, geo, units, memory0, guards0, offsets, i)
        invariant forall k :: 0 <= k < |cmds| ==> !cmds[k].Spawn? && cmds[k].unitId in IdsOf(units)
        invariant guardBots == GuardsAfter(guards0, units[..i])
        invariant targetOpponents == ClaimsAfter(units[..i])
        invariant forall g :: g in guards0 ==> g in guardBots
        invariant forall g :: g in guardBots ==> g in guards0 || g in units
        invariant forall id :: EntriesFor(previousUpdateUnits, id) == Remembered(memory0, units[..i], id)
      {
        assert units[i] in units;
        var unitCmds;
        unitCmds, targetOpponents := ProcessUnit(units, i, targetOpponents, cfg, geo, offsets, memory0, guards0);
        AppendAddressed(cmds, unitCmds, 0, units[i], units);
        cmds := cmds + unitCmds;
      }
      assert units[..|units|] == units;
    }

    /** Lines 23-69: one tick. `cornerOffsets[i]` is the draw of `nextInt(5)`
        should unit i need a guard position. */
    method Update(state: GameState, cfg: Config, geo: Geometry, cornerOffsets: seq<int>) returns (cmds: seq<Command>)
      requires Valid()
      requires |cornerOffsets| == |state.units|
      requires forall i :: 0 <= i < |cornerOffsets| ==> 0 <= cornerOffsets[i] < 5
      modifies this
      ensures Valid()
      ensures var spawn := SpawnCommands(SpawnDecision(cfg, WorkerCount(state.units), |state.units|, state.resources));
        && cmds == spawn + TickCommands(cfg, geo, state.units, old(previousUpdateUnits),
                                        KeepIds(old(guardBots), IdsOf(state.units)), cornerOffsets, |state.units|)
        && CountSpawns(cmds) == |spawn| <= 1
        && forall k :: |spawn| <= k < |cmds| ==> !cmds[k].Spawn? && cmds[k].unitId in IdsOf(state.units)
      ensures guardBots == GuardsAfter(KeepIds(old(guardBots), IdsOf(state.units)), state.units)
      ensures forall g :: g in guardBots ==> g.id in IdsOf(state.units)
      ensures forall g :: g in old(guardBots) && g.id in IdsOf(state.units) ==> g in guardBots
      ensures forall id :: EntriesFor(previousUpdateUnits, id) == Remembered(old(previousUpdateUnits), state.units, id)
    {
      var units := state.units;
      var numberOfWorkers := CountWorkers(units);
      var spawn := SpawnCommands(SpawnDecision(cfg, numberOfWorkers, |units|, state.resources));
      SpawnCountOfDecision(SpawnDecision(cfg, numberOfWorkers, |units|, state.resources));

      RemoveDeadGuardBots(units);
      ghost var liveGuards := guardBots;

      var unitCmds := RunUnits(units, cfg, geo, cornerOffsets);
      cmds := spawn + unitCmds;
      SpawnThenUnitCommands(spawn, unitCmds, units);
      GuardsAliveAfterTick(old(guardBots), liveGuards, guardBots, units);
    }
  }

  /** The health of the unit dropped against a stored entry for its id. */
  ghost predicate HealthDropped(memory: seq<UnitData>, unit: UnitData)
  {
    exists e :: e in memory && e.id == unit.id && e.health > unit.health
  }

  /** Only the entries for the unit's own id decide the health check. */
  lemma HealthDroppedEntries(memory: seq<UnitData>, unit: UnitData)
    ensures HealthDropped(memory, unit) <==> HealthDropped(EntriesFor(memory, unit.id), unit)
  {
    KeepIdsMembers(memory, {unit.id});
  }

  /** The guard register after AssignGuardBot. */
  function WithGuard(guards: seq<UnitData>, unit: UnitData): seq<UnitData>
  {
    if unit.id !in IdsOf(guards) && |guards| < 2 then guards + [unit] else guards
  }

  /** A unit is a guard after AssignGuardBot iff it already was one or a slot was free. */
  lemma GuardDuty(guards: seq<UnitData>, unit: UnitData)
    ensures unit.id in IdsOf(WithGuard(guards, unit)) <==> unit.id in IdsOf(guards) || |guards| < 2
  {
    if unit.id !in IdsOf(guards) && |guards| < 2 {
      assert unit in guards + [unit];
    }
  }

  /** What one unit does to the guard register: only a warrior without
      opponents in view is offered a guard slot. */
  function GuardsStep(guards: seq<UnitData>, unit: UnitData): seq<UnitData>
  {
    if unit.utype == Warrior && |unit.opponentsInView| == 0 then WithGuard(guards, unit) else guards
  }

  /** A step keeps every guard and adds at most the unit itself. */
  lemma GuardsStepMembers(guards: seq<UnitData>, unit: UnitData)
    ensures forall g :: g in guards ==> g in GuardsStep(guards, unit)
    ensures forall g :: g in GuardsStep(guards, unit) ==> g in guards || g == unit
  {
  }

  /** The guard register after the given units have been processed. */
  function GuardsAfter(guards: seq<UnitData>, units: seq<UnitData>): seq<UnitData>
  {
    if units == [] then guards
    else GuardsStep(GuardsAfter(guards, units[..|units| - 1]), units[|units| - 1])
  }

  /** During a tick the register only grows at its end, never past two, and
      only with warriors that saw no opponent. */
  lemma {:induction false} GuardsAfterSpec(guards: seq<UnitData>, units: seq<UnitData>)
    requires |guards| <= 2
    ensures var r := GuardsAfter(guards, units);
      && |guards| <= |r| <= 2 && r[..|guards|] == guards
      && forall k :: |guards| <= k < |r| ==>
           r[k] in units && r[k].utype == Warrior && |r[k].opponentsInView| == 0
  {
    if units != [] {
      var init := units[..|units| - 1];
      var u := units[|units| - 1];
      GuardsAfterSpec(guards, init);
      var g := GuardsAfter(guards, init);
      assert forall x :: x in init ==> x in units;
      if GuardsStep(g, u) != g {
        assert GuardsStep(g, u) == g + [u];
        assert (g + [u])[..|guards|] == g[..|guards|];
      }
    }
  }

  /** The commands one unit issues (lines 43-65), given whether its health
      dropped, the guard register and the claims before it. A worker calls out
      its damage and acts; a warrior in view of opponents fights the one it
      settles on; any other warrior takes a guard slot if it can and then holds
      its corner as a guard or follows a worker. */
  ghost function UnitCommands(cfg: Config, geo: Geometry, units: seq<UnitData>, unit: UnitData, damaged: bool,
                              guards: seq<UnitData>, claimed: seq<OpponentInView>, rngPos: int): (cs: seq<Command>)
    requires 0 <= rngPos < 5
    ensures AllAddress(cs, unit.id)
  {
    match unit.utype
    case Worker =>
      var cs := HealthCallout(unit, damaged) + WorkerAction(cfg, unit, Threatened(geo, unit), damaged);
      assert forall c :: c in cs ==> c in HealthCallout(unit, damaged) || c in WorkerAction(cfg, unit, Threatened(geo, unit), damaged);
      cs
    case Warrior =>
      if |unit.opponentsInView| > 0 then
        var o := ChosenOpponent(unit, claimed);
        WarriorAction(geo, unit, o, OpponentLookAngle(geo, o, unit), damaged, ClearToFire(geo, unit, units))
      else if unit.id in IdsOf(WithGuard(guards, unit)) then GuardMove(cfg, geo, unit, rngPos)
      else FollowMove(cfg, unit, LastFollowable(geo, unit, units))
  }

  /** What the roles amount to. A damaged worker reports its health, shouts
      and flees home. A damaged warrior in view of opponents turns right and
      holds fire. A warrior without opponents in view holds a corner iff it
      is a guard already or a guard slot is free, and follows a worker
      otherwise. */
  lemma UnitCommandsByRole(cfg: Config, geo: Geometry, units: seq<UnitData>, unit: UnitData, damaged: bool,
                           guards: seq<UnitData>, claimed: seq<OpponentInView>, rngPos: int)
    requires 0 <= rngPos < 5
    ensures var cs := UnitCommands(cfg, geo, units, unit, damaged, guards, claimed, rngPos);
      && (unit.utype == Worker && damaged ==>
            cs == [SaySomething(unit.id, HealthReport(unit.health)), SaySomething(unit.id, RunAway),
                   NavigationStart(unit.id, cfg.spawn.x, cfg.spawn.y, true)])
      && (unit.utype == Warrior && |unit.opponentsInView| > 0 && damaged ==>
            SetRotation(unit.id, Right) in cs && Shoot(unit.id) !in cs)
      && (unit.utype == Warrior && |unit.opponentsInView| == 0 ==>
            cs == if unit.id in IdsOf(guards) || |guards| < 2 then GuardMove(cfg, geo, unit, rngPos)
                  else FollowMove(cfg, unit, LastFollowable(geo, unit, units)))
  {
    GuardDuty(guards, unit);
    var callout := HealthCallout(unit, damaged);
    if damaged {
      assert |callout| == 1 && callout[0] in callout;
      assert callout == [SaySomething(unit.id, HealthReport(unit.health))];
    }
  }

  /** The commands the first n units issue in a tick that starts from the
      memory `memory0` and the guard register `guards0` (after the dead
      guards were removed). */
  ghost function TickCommands(cfg: Config, geo: Geometry, units: seq<UnitData>, memory0: seq<UnitData>,
                              guards0: seq<UnitData>, offsets: seq<int>, n: nat): seq<Command>
    requires n <= |units| == |offsets|
    requires forall i :: 0 <= i < |offsets| ==> 0 <= offsets[i] < 5
  {
    if n == 0 then []
    else
      var u := units[n - 1];
      TickCommands(cfg, geo, units, memory0, guards0, offsets, n - 1) +
      UnitCommands(cfg, geo, units, u, HealthDropped(Remembered(memory0, units[..n - 1], u.id), u),
                   GuardsAfter(guards0, units[..n - 1]), ClaimsAfter(units[..n - 1]), offsets[n - 1])
  }

  /** The health check against the memory of the tick so far agrees with the
      check against `Remembered`. */
  lemma DamagedAgrees(memory0: seq<UnitData>, units: seq<UnitData>, i: nat, memory: seq<UnitData>)
    requires i < |units|
    requires forall id :: EntriesFor(memory, id) == Remembered(memory0, units[..i], id)
    ensures HealthDropped(memory, units[i]) == HealthDropped(Remembered(memory0, units[..i], units[i].id), units[i])
  {
    HealthDroppedEntries(memory, units[i]);
    assert EntriesFor(memory, units[i].id) == Remembered(memory0, units[..i], units[i].id);
  }

  /** Processing unit i extends the tick's commands, guards and claims by
      that unit's step. */
  lemma TickStep(cfg: Config, geo: Geometry, units: seq<UnitData>, memory0: seq<UnitData>, guards0: seq<UnitData>,
                 offsets: seq<int>, i: nat, damaged: bool, guards: seq<UnitData>, claimed: seq<OpponentInView>)
    requires i < |units| == |offsets|
    requires forall k :: 0 <= k < |offsets| ==> 0 <= offsets[k] < 5
    requires damaged == HealthDropped(Remembered(memory0, units[..i], units[i].id), units[i])
    requires guards == GuardsAfter(guards0, units[..i]) && claimed == ClaimsAfter(units[..i])
    ensures TickCommands(cfg, geo, units, memory0, guards0, offsets, i + 1) ==
            TickCommands(cfg, geo, units, memory0, guards0, offsets, i) +
            UnitCommands(cfg, geo, units, units[i], damaged, guards, claimed, offsets[i])
    ensures GuardsAfter(guards0, units[..i + 1]) == GuardsStep(guards, units[i])
    ensures ClaimsAfter(units[..i + 1]) == ClaimsStep(claimed, units[i])
  {
    assert units[..i + 1][..i] == units[..i] && units[..i + 1][i] == units[i];
  }

  /** Appending the commands of a unit of the snapshot keeps every command
      after the spawn prefix addressed to a unit of the snapshot. */
  lemma AppendAddressed(cmds: seq<Command>, unitCmds: seq<Command>, from: nat, unit: UnitData, units: seq<UnitData>)
    requires forall k :: from <= k < |cmds| ==> !cmds[k].Spawn? && cmds[k].unitId in IdsOf(units)
    requires AllAddress(unitCmds, unit.id) && unit in units
    ensures forall k :: from <= k < |cmds + unitCmds| ==>
      !(cmds + unitCmds)[k].Spawn? && (cmds + unitCmds)[k].unitId in IdsOf(units)
  {
    forall k | from <= k < |cmds + unitCmds|
      ensures !(cmds + unitCmds)[k].Spawn? && (cmds + unitCmds)[k].unitId in IdsOf(units)
    {
      if k >= |cmds| {
        assert (cmds + unitCmds)[k] == unitCmds[k - |cmds|];
        assert unitCmds[k - |cmds|] in unitCmds;
      }
    }
  }

  /** The memory the tick should leave for one id: the latest snapshot of it
      seen so far this tick, or, for an id not seen, what was stored before. */
  function Remembered(memory0: seq<UnitData>, seen: seq<UnitData>, id: int): seq<UnitData>
  {
    match LastWithId(seen, id)
    case Some(u) => [u]
    case None => EntriesFor(memory0, id)
  }

  /** Recording unit i keeps the memory in step with the units seen so far. */
  lemma MemoryStep(memory0: seq<UnitData>, units: seq<UnitData>, i: nat, before: seq<UnitData>)
    requires i < |units|
    requires forall id :: EntriesFor(before, id) == Remembered(memory0, units[..i], id)
    ensures forall id :: EntriesFor(RemoveId(before, units[i].id) + [units[i]], id) ==
                         Remembered(memory0, units[..i + 1], id)
  {
    assert units[..i + 1][..i] == units[..i];
    forall id
      ensures EntriesFor(RemoveId(before, units[i].id) + [units[i]], id) == Remembered(memory0, units[..i + 1], id)
    {
      RecordEntries(before, units[i], id);
    }
  }

  /** Lines 130-138: the guards whose id is missing from the snapshot, in
      register order. */
  method CollectDeadGuards(guards: seq<UnitData>, units: seq<UnitData>) returns (removeGuards: seq<UnitData>)
    ensures removeGuards == DropIds(guards, IdsOf(units))
  {
    removeGuards := [];
    for k := 0 to |guards|
      invariant removeGuards == DropIds(guards[..k], IdsOf(units))
    {
      DropPrefixStep(guards, k, IdsOf(units));
      var existingUnit := FindById(units, guards[k].id);
      if existingUnit.None? {
        removeGuards := removeGuards + [guards[k]];
      }
    }
    assert guards[..|guards|] == guards;
  }

  /** The tick's commands: the spawn prefix holds the only spawn calls, and
      everything after it is addressed to a unit of the snapshot. */
  lemma SpawnThenUnitCommands(spawn: seq<Command>, unitCmds: seq<Command>, units: seq<UnitData>)
    requires CountSpawns(spawn) == |spawn|
    requires forall k :: 0 <= k < |unitCmds| ==> !unitCmds[k].Spawn? && unitCmds[k].unitId in IdsOf(units)
    ensures CountSpawns(spawn + unitCmds) == |spawn|
    ensures forall k :: |spawn| <= k < |spawn + unitCmds| ==>
      !(spawn + unitCmds)[k].Spawn? && (spawn + unitCmds)[k].unitId in IdsOf(units)
  {
    NoSpawnsAtAll(unitCmds);
    CountSpawnsAppend(spawn, unitCmds);
    assert forall k :: |spawn| <= k < |spawn + unitCmds| ==> (spawn + unitCmds)[k] == unitCmds[k - |spawn|];
  }

  /** After the tick every guard is alive, and every old guard that is alive
      is still a guard. */
  lemma GuardsAliveAfterTick(old0: seq<UnitData>, live: seq<UnitData>, final: seq<UnitData>, units: seq<UnitData>)
    requires live == KeepIds(old0, IdsOf(units))
    requires forall g :: g in live ==> g in final
    requires forall g :: g in final ==> g in live || g in units
    ensures forall g :: g in final ==> g.id in IdsOf(units)
    ensures forall g :: g in old0 && g.id in IdsOf(units) ==> g in final
  {
    KeepIdsMembers(old0, IdsOf(units));
  }

  /** Removing the collected dead guards leaves the live ones, still without
      duplicate ids. */
  lemma RemovalLeavesLiveGuards(guards: seq<UnitData>, removeGuards: seq<UnitData>, units: seq<UnitData>)
    requires UniqueIds(guards)
    requires removeGuards == DropIds(guards, IdsOf(units))
    ensures DropIds(guards, IdsOf(removeGuards)) == KeepIds(guards, IdsOf(units))
    ensures UniqueIds(KeepIds(guards, IdsOf(units))) && |KeepIds(guards, IdsOf(units))| <= |guards|
  {
    DropCollected(guards, IdsOf(units));
    UniqueKeep(guards, IdsOf(units));
  }

  /** What RemoveDeadGuardBots leaves: only guards still in the snapshot, all
      of those, in their original order. */
  lemma LiveGuardsKept(guards: seq<UnitData>, units: seq<UnitData>)
    ensures forall g :: g in KeepIds(guards, IdsOf(units)) ==> g.id in IdsOf(units)
    ensures forall g :: g in guards && g.id in IdsOf(units) ==> g in KeepIds(guards, IdsOf(units))
    ensures IsSubsequence(KeepIds(guards, IdsOf(units)), guards)
  {
    KeepIdsSubsequence(guards, IdsOf(units));
  }
}
