/** Properties of the unit rules: what each action refuses, what it changes
    when it succeeds, the once-per-turn attack, the tick count of a build,
    and how the build slot of a Base evolves over repeated build orders. */
module UnitProperties {
  import opened Common
  import opened UnitTables
  import opened Grid
  import opened Units

  /** A freshly constructed unit is well formed and its initial maps back to
      its type through `unitTypeMap`. */
  lemma NewUnitWellFormed(owner: bool, id: u16, t: UnitType)
    ensures WellFormed(NewUnit(owner, id, t))
    ensures NewUnit(owner, id, t).creation == None
    ensures TypeOfInitial(GetInitial(NewUnit(owner, id, t))) == Some(t)
  {
  }

  /** `takeDamage` lowers health by exactly the amount, or to 0 when the
      amount reaches the health; it never raises health. */
  lemma TakeDamageFloors(u: UnitValue, amount: u16)
    ensures amount >= u.health ==> WithDamage(u, amount).health == 0
    ensures amount < u.health ==> WithDamage(u, amount).health == u.health - amount
    ensures WithDamage(u, amount) == u.(health := WithDamage(u, amount).health)
    ensures WellFormed(u) ==> WellFormed(WithDamage(u, amount))
  {
  }

  /** The move guard: a move succeeds exactly when none of the five refusals
      applies, each refusal in the source's order is reported with its own
      error, and a successful move keeps the unit well formed. */
  lemma MoveGuards(u: UnitValue, x: u16, y: u16, units: seq<UnitValue>, m: Map)
    requires m.Valid()
    ensures u.kind == Base ==> MoveResult(u, x, y, units, m) == Err(BaseCannotMove)
    ensures u.kind != Base && Distance(u, x, y) > u.speed ==> MoveResult(u, x, y, units, m) == Err(TooFar)
    ensures u.kind != Base && Distance(u, x, y) <= u.speed && !m.InBounds(x, y) ==>
              MoveResult(u, x, y, units, m) == Err(OutsideMap)
    ensures u.kind != Base && Distance(u, x, y) <= u.speed && m.InBounds(x, y) && m.At(x, y) == '9' ==>
              MoveResult(u, x, y, units, m) == Err(Obstacle)
    ensures MoveResult(u, x, y, units, m).Ok? <==>
              u.kind != Base && Distance(u, x, y) <= u.speed && m.InBounds(x, y) && m.At(x, y) != '9'
              && !EnemyAt(units, x, y, u.owner)
    ensures MoveResult(u, x, y, units, m).Ok? ==>
              MoveResult(u, x, y, units, m).value == u.(x := x, y := y, speed := u.speed - Distance(u, x, y))
    ensures MoveResult(u, x, y, units, m).Ok? && WellFormed(u) ==> WellFormed(MoveResult(u, x, y, units, m).value)
  {
  }

  /** A successful move over a true Manhattan distance below 2^16 spends
      exactly that distance. */
  lemma MoveSpendsManhattanDistance(u: UnitValue, x: u16, y: u16, units: seq<UnitValue>, m: Map)
    requires m.Valid()
    requires MoveResult(u, x, y, units, m).Ok?
    requires Abs(u.x - x) + Abs(u.y - y) < 0x1_0000
    ensures MoveResult(u, x, y, units, m).value.speed == u.speed - (Abs(u.x - x) + Abs(u.y - y))
  {
  }

  /** The attack guard: each of the six refusals, in the source's order, is
      reported with its own error, and an attack is accepted exactly when none
      of them applies. */
  lemma AttackGuards(a: UnitValue, targetId: u16, units: seq<UnitValue>)
    ensures a.kind == Base ==> AttackResult(a, targetId, units) == Err(BaseCannotAttack)
    ensures a.kind != Base && a.speed == 0 ==> AttackResult(a, targetId, units) == Err(NoSpeedLeft)
    ensures a.kind != Base && a.speed > 0 && a.hasAttacked ==> AttackResult(a, targetId, units) == Err(AlreadyAttacked)
    ensures a.kind != Base && a.speed > 0 && !a.hasAttacked && (forall j :: 0 <= j < |units| ==> units[j].id != targetId) ==>
              AttackResult(a, targetId, units) == Err(TargetNotFound)
    ensures a.kind != Base && a.speed > 0 && !a.hasAttacked && FindById(units, targetId).Some?
            && units[FindById(units, targetId).value].owner == a.owner ==>
              AttackResult(a, targetId, units) == Err(AllyTarget)
    ensures a.kind != Base && a.speed > 0 && !a.hasAttacked && FindById(units, targetId).Some?
            && units[FindById(units, targetId).value].owner != a.owner
            && Distance(a, units[FindById(units, targetId).value].x, units[FindById(units, targetId).value].y) > a.attackRange ==>
              AttackResult(a, targetId, units) == Err(OutOfAttackRange)
    ensures AttackResult(a, targetId, units).Ok? <==>
              && a.kind != Base && a.speed > 0 && !a.hasAttacked && FindById(units, targetId).Some?
              && units[FindById(units, targetId).value].owner != a.owner
              && Distance(a, units[FindById(units, targetId).value].x, units[FindById(units, targetId).value].y) <= a.attackRange
  {
  }

  /** An Archer attacking an enemy Swordsman on its own cell: the attack is
      accepted and the Swordsman's health drops from 60 to 45. */
  lemma ArcherWoundsSwordsman(archer: UnitValue, swordsman: UnitValue)
    requires archer == NewUnit(false, 1, Archer)
    requires swordsman == NewUnit(true, 2, Swordsman)
    ensures AttackResult(archer, 2, [swordsman]).Ok?
    ensures AttackResult(archer, 2, [swordsman]).value.1 == [swordsman.(health := 45)]
  {
    assert FindById([swordsman], 2) == Some(0);
    assert Distance(archer, 0, 0) == 0;
    ArcherHitsSwordsman();
  }

  /** A successful attack: the first unit in the list with the target id is
      an enemy within range and takes the table's damage; every other unit of
      the list is unchanged; the attacker spends one speed and is marked. */
  lemma AttackHitsFirstMatch(a: UnitValue, targetId: u16, units: seq<UnitValue>)
    requires AttackResult(a, targetId, units).Ok?
    ensures var i := FindById(units, targetId).value;
            var after := AttackResult(a, targetId, units).value.1;
            && (forall j :: 0 <= j < i ==> units[j].id != targetId)
            && units[i].owner != a.owner
            && Distance(a, units[i].x, units[i].y) <= a.attackRange
            && |after| == |units|
            && after[i] == units[i].(health := FlooredHealth(units[i].health, CalculateDamage(a.kind, units[i].kind)))
            && (forall j :: 0 <= j < |units| && j != i ==> after[j] == units[j])
    ensures var b := AttackResult(a, targetId, units).value.0;
            b.speed == a.speed - 1 && b.hasAttacked && b == a.(speed := b.speed, hasAttacked := true)
    ensures WellFormed(a) ==> WellFormed(AttackResult(a, targetId, units).value.0)
  {
  }

  /** Because the distance wraps modulo 2^16, a unit at (0, 0) reaches a
      target at (65535, 1): the true distance 65536 is computed as 0. */
  lemma AttackDistanceWraps(attacker: UnitValue, defender: UnitValue)
    requires attacker == NewUnit(false, 2, Knight)
    requires defender == NewUnit(true, 3, Worker).(x := 65535, y := 1)
    ensures Distance(attacker, defender.x, defender.y) == 0
    ensures AttackResult(attacker, 3, [defender]).Ok?
  {
  }

  /** A unit attacks at most once per turn: after a successful attack, every
      further attack before `reset` is refused, whatever the target. */
  lemma SecondAttackRefused(a: UnitValue, id1: u16, units1: seq<UnitValue>, id2: u16, units2: seq<UnitValue>)
    requires AttackResult(a, id1, units1).Ok?
    ensures var b := AttackResult(a, id1, units1).value.0;
            AttackResult(b, id2, units2) == Err(NoSpeedLeft) || AttackResult(b, id2, units2) == Err(AlreadyAttacked)
  {
  }

  /** `reset` twice is `reset` once; it restores the base speed and clears the
      attack flag, so an attack after it is never refused as a second attack,
      and a well-formed non-Base unit is not refused for lack of speed. */
  lemma ResetProperties(u: UnitValue, targetId: u16, units: seq<UnitValue>)
    ensures ResetState(ResetState(u)) == ResetState(u)
    ensures WellFormed(u) ==> WellFormed(ResetState(u))
    ensures AttackResult(ResetState(u), targetId, units) != Err(AlreadyAttacked)
    ensures WellFormed(u) && u.kind != Base ==> AttackResult(ResetState(u), targetId, units) != Err(NoSpeedLeft)
  {
  }

  /** The state and report after `k` successive `buildingTick` calls. */
  function Ticks(u: UnitValue, k: nat): Result<(UnitValue, bool), UnitError>
    decreases k
  {
    if k == 0 then Ok((u, u.buildingTime == 0))
    else match Ticks(u, k - 1)
      case Err(e) => Err(e)
      case Ok((v, _)) => TickResult(v)
  }

  /** A unit with building time t reports completion first on its t-th tick:
      after k ticks its building time is t - k (never below 0), and the tick
      reports completion exactly when k >= t. */
  lemma {:induction false} TicksComplete(u: UnitValue, k: nat)
    requires u.kind != Base
    requires k >= 1
    ensures Ticks(u, k).Ok?
    ensures Ticks(u, k).value.0 == u.(buildingTime := if k < u.buildingTime then u.buildingTime - k else 0)
    ensures Ticks(u, k).value.1 <==> k >= u.buildingTime
  {
    if k > 1 {
      TicksComplete(u, k - 1);
    }
  }

  /** The state of a base after `k` successive `createUnit(unit)` orders, with
      the outcome of the last one. */
  function CreateRepeated(b: UnitValue, unit: UnitValue, k: nat): (UnitValue, Outcome<UnitError>)
    decreases k
  {
    if k == 0 then (b, Pass)
    else CreateResult(CreateRepeated(b, unit, k - 1).0, unit)
  }

  /** The build timeline of an idle Base ordered to build a non-Base unit with
      building time t: the first t - 1 orders return normally with the unit in
      the slot and t - k ticks to go; the t-th order and every later one throw
      from `deploy`, leaving the finished unit stuck in the slot. */
  lemma {:induction false} BuildTimeline(b: UnitValue, unit: UnitValue, k: nat)
    requires b.kind == Base && b.creation == None
    requires unit.kind != Base
    requires k >= 1
    ensures k < unit.buildingTime ==>
              CreateRepeated(b, unit, k) == (b.(creation := Some(unit.(buildingTime := unit.buildingTime - k))), Pass)
    ensures k >= unit.buildingTime ==>
              CreateRepeated(b, unit, k) == (b.(creation := Some(unit.(buildingTime := 0))), Fail(NotDeployable))
  {
    if k > 1 {
      BuildTimeline(b, unit, k - 1);
    }
  }

  /** The busy check compares ids, not types: an order for a different unit
      with the same id as the creation in progress advances that creation. */
  lemma BusyCheckUsesIds(b: UnitValue, unit: UnitValue)
    requires b.kind == Base && b.creation.Some?
    requires b.creation.value.id == unit.id && b.creation.value.kind != unit.kind
    ensures CreateResult(b, unit) == AdvanceCreation(b, b.creation.value)
  {
  }

  /** Ordering an idle Base to build a Base stores it in the slot before the
      tick throws, so the slot is occupied although the order failed. */
  lemma BuildingABaseFillsSlot(b: UnitValue, unit: UnitValue)
    requires b.kind == Base && b.creation == None && unit.kind == Base
    ensures CreateResult(b, unit) == (b.(creation := Some(unit)), Fail(BaseCannotBeBuilt))
  {
  }

  /** The scenario of a Worker (building time 2) ordered twice: the second
      order throws instead of deploying. */
  lemma WorkerBuildNeverDeploys(b: UnitValue, w: UnitValue)
    requires b == NewUnit(true, 1, Base)
    requires w == NewUnit(true, 5, Worker)
    ensures CreateRepeated(b, w, 1).1 == Pass
    ensures CreateRepeated(b, w, 2) == (b.(creation := Some(w.(buildingTime := 0))), Fail(NotDeployable))
  {
    BuildTimeline(b, w, 1);
    BuildTimeline(b, w, 2);
  }

  /** `deploy` as it is evidently meant: a finished unit that is not a Base is
      placed on its base's cell. */
  function DeployIntended(u: UnitValue, base: UnitValue): (r: Result<UnitValue, UnitError>)
    ensures r.Ok? <==> u.kind != Base
    ensures r.Ok? ==> r.value == u.(x := base.x, y := base.y)
  {
    if u.kind != Base then Ok(u.(x := base.x, y := base.y)) else Err(NotDeployable)
  }

  /** `createUnit` with the intended `deploy`: the finished unit is handed
      back, placed on the base's cell, and the slot is cleared. */
  function CreateIntended(b: UnitValue, unit: UnitValue): (r: (UnitValue, Option<UnitValue>, Outcome<UnitError>))
    ensures r.1.Some? ==> r.0 == b.(creation := None) && r.1.value.x == b.x && r.1.value.y == b.y
  {
    if b.kind != Base then (b, None, Fail(OnlyBaseCreates))
    else
      var b0 := if b.creation.None? then b.(creation := Some(unit)) else b;
      var c := b0.creation.value;
      if b.creation.Some? && c.id != unit.id then (b, None, Fail(BaseBusy))
      else match TickResult(c)
        case Err(e) => (b0, None, Fail(e))
        case Ok((c', done)) =>
          if !done then (b0.(creation := Some(c')), None, Pass)
          else match DeployIntended(c', b0)
            case Err(e) => (b0.(creation := Some(c')), None, Fail(e))
            case Ok(d) => (b0.(creation := None), Some(d), Pass)
  }

  /** The intended build state after `k` orders, with the unit handed back by
      the last one. */
  function CreateIntendedRepeated(b: UnitValue, unit: UnitValue, k: nat): (UnitValue, Option<UnitValue>, Outcome<UnitError>)
    decreases k
  {
    if k == 0 then (b, None, Pass)
    else CreateIntended(CreateIntendedRepeated(b, unit, k - 1).0, unit)
  }

  /** With the intended `deploy`, an idle Base ordered to build a non-Base unit
      with building time t >= 1 hands it back on its t-th order, standing on
      the base's cell, with the slot cleared; no earlier order hands anything
      back. */
  lemma {:induction false} IntendedBuildDeploys(b: UnitValue, unit: UnitValue, k: nat)
    requires b.kind == Base && b.creation == None
    requires unit.kind != Base && unit.buildingTime >= 1
    requires 1 <= k <= unit.buildingTime
    ensures k < unit.buildingTime ==>
              CreateIntendedRepeated(b, unit, k) ==
                (b.(creation := Some(unit.(buildingTime := unit.buildingTime - k))), None, Pass)
    ensures k == unit.buildingTime ==>
              CreateIntendedRepeated(b, unit, k) ==
                (b, Some(unit.(buildingTime := 0, x := b.x, y := b.y)), Pass)
  {
    if k > 1 {
      IntendedBuildDeploys(b, unit, k - 1);
    }
  }
}
