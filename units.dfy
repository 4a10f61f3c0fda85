/** The unit entity and its rules: construction from the attribute table,
    movement, combat, damage, the per-turn reset and a Base's build slot.

    A unit object (class `Unit`) is updated in place by its methods. The
    copies of units that live in vectors, in a Base's build slot and in the
    caller's target list are values (`UnitValue`). Each method of `Unit` is
    specified by a function on `UnitValue`, and the rules are proved about
    those functions. */
module Units {
  import opened Common
  import opened UnitTables
  import opened Grid

  /** The exceptions the unit operations throw. */
  datatype UnitError =
    | InvalidUnitName
    | BaseCannotAttack | NoSpeedLeft | AlreadyAttacked | TargetNotFound | AllyTarget | OutOfAttackRange
    | BaseCannotMove | TooFar | OutsideMap | Obstacle | EnemyOccupied
    | BaseCannotBeBuilt | NotDeployable | OnlyBaseCreates | BaseBusy

  /** The state of one unit, as a value. `kind` stands for the unit's name,
      `x` and `y` for `position[0]` and `position[1]`, and `creation` for the
      unit a Base is building, held by value. */
  datatype UnitValue = UnitValue(
    id: u16, owner: bool, kind: UnitType,
    health: u16, speed: u16, cost: u16, attackRange: u16, buildingTime: u16,
    x: u16, y: u16, baseSpeed: u16, hasAttacked: bool,
    creation: Option<UnitValue>)

  /** A freshly constructed unit of a known type. The position, which the
      constructor leaves uninitialised, is (0, 0). */
  function NewUnit(owner: bool, id: u16, t: UnitType): UnitValue {
    var a := Attributes(t);
    UnitValue(id, owner, t, a.health, a.speed, a.cost, a.attackRange, a.buildingTime,
              0, 0, a.speed, false, None)
  }

  /** The unit constructor: it throws for a name that is not in the attribute
      table; otherwise the attributes are that table row, the unit has not
      attacked, its base speed is its speed and no creation is in progress. */
  function Construct(owner: bool, id: u16, name: string): (r: Result<UnitValue, UnitError>)
    ensures r.Err? <==> forall t :: name != Name(t)
    ensures r.Err? ==> r.error == InvalidUnitName
    ensures r.Ok? ==> var u := r.value; var a := Attributes(u.kind);
      && Name(u.kind) == name && u.id == id && u.owner == owner
      && u.health == a.health && u.speed == a.speed && u.cost == a.cost
      && u.attackRange == a.attackRange && u.buildingTime == a.buildingTime
      && !u.hasAttacked && u.baseSpeed == u.speed && u.creation == None
  {
    match TypeOfName(name)
    case None => Err(InvalidUnitName)
    case Some(t) => Ok(NewUnit(owner, id, t))
  }

  /** The consistency every unit keeps: the constant attributes are its
      type's row, speed never exceeds the base speed, and health and building
      time never exceed the type's. */
  predicate WellFormed(u: UnitValue) {
    var a := Attributes(u.kind);
    && u.baseSpeed == a.speed && u.cost == a.cost && u.attackRange == a.attackRange
    && u.speed <= u.baseSpeed && u.health <= a.health && u.buildingTime <= a.buildingTime
  }

  /** `getInitial`: the first letter of the unit's name, which `unitTypeMap`
      maps back to the unit's type. (The empty-name branch cannot occur in
      the model, since every name is non-empty.) */
  function GetInitial(u: UnitValue): (c: char)
    ensures TypeOfInitial(c) == Some(u.kind)
  {
    Name(u.kind)[0]
  }

  /** `isWorker` */
  predicate IsWorker(u: UnitValue): (b: bool)
    ensures b <==> Name(u.kind) == "Worker"
  {
    u.kind == Worker
  }

  /** `isWorkerOnMine`: true exactly for a Worker standing on a '6' cell; a
      Worker standing outside the map makes the cell lookup throw. */
  function IsWorkerOnMine(u: UnitValue, m: Map): (r: Result<bool, MapError>)
    requires m.Valid()
    ensures r == Ok(true) <==> u.kind == Worker && m.InBounds(u.x, u.y) && m.At(u.x, u.y) == '6'
    ensures r.Err? <==> u.kind == Worker && !m.InBounds(u.x, u.y)
  {
    if !IsWorker(u) then Ok(false)
    else match m.GetCell(u.x, u.y)
      case Err(e) => Err(e)
      case Ok(c) => Ok(c == '6')
  }

  /** `calculateDistance`: the Manhattan distance, computed in `int` and
      returned as an `unsigned short`, so it wraps modulo 2^16. */
  function Distance(u: UnitValue, x: u16, y: u16): (d: u16)
    ensures (Abs(u.x - x) + Abs(u.y - y) - d) % 0x1_0000 == 0
    ensures Abs(u.x - x) + Abs(u.y - y) < 0x1_0000 ==> d == Abs(u.x - x) + Abs(u.y - y)
  {
    ToU16(Abs(u.x - x) + Abs(u.y - y))
  }

  /** The health left after `takeDamage(amount)`: health minus amount,
      floored at 0. */
  function FlooredHealth(health: u16, amount: u16): (h: u16)
    ensures h <= health
    ensures h >= health - amount
    ensures h == 0 || h == health - amount
  {
    if amount >= health then 0 else health - amount
  }

  /** A unit after `takeDamage(amount)`. */
  function WithDamage(u: UnitValue, amount: u16): UnitValue {
    u.(health := FlooredHealth(u.health, amount))
  }

  /** An enemy of `owner` stands on (x, y). */
  predicate EnemyAt(units: seq<UnitValue>, x: u16, y: u16, owner: bool) {
    exists i :: 0 <= i < |units| && units[i].x == x && units[i].y == y && units[i].owner != owner
  }

  /** `moveAction`, checks in the source's order; on success the unit stands
      on (x, y) and has spent the distance from its speed. */
  function MoveResult(u: UnitValue, x: u16, y: u16, units: seq<UnitValue>, m: Map): (r: Result<UnitValue, UnitError>)
    requires m.Valid()
    ensures r.Ok? ==> r.value.x == x && r.value.y == y && r.value.speed + Distance(u, x, y) == u.speed
    ensures r.Ok? ==> m.InBounds(x, y) && m.At(x, y) != '9' && !EnemyAt(units, x, y, u.owner)
  {
    var d := Distance(u, x, y);
    if u.kind == Base then Err(BaseCannotMove)
    else if d > u.speed then Err(TooFar)
    else if x >= m.Width() || y >= m.Height() then Err(OutsideMap)
    else if m.At(x, y) == '9' then Err(Obstacle)
    else if EnemyAt(units, x, y, u.owner) then Err(EnemyOccupied)
    else Ok(u.(x := x, y := y, speed := u.speed - d))
  }

  /** The index of the first unit with the given id, as the source's search loop
      that breaks at the first match finds it. */
  function FindById(units: seq<UnitValue>, id: u16): (r: Option<nat>)
    ensures r.Some? ==> r.value < |units| && units[r.value].id == id
                        && forall j :: 0 <= j < r.value ==> units[j].id != id
    ensures r.None? ==> forall j :: 0 <= j < |units| ==> units[j].id != id
  {
    if |units| == 0 then None
    else if units[0].id == id then Some(0)
    else match FindById(units[1..], id)
      case None => None
      case Some(k) => Some(k + 1)
  }

  /** `attackAction`, checks in the source's order. On success the attacker has
      spent one speed and is marked as having attacked, and the target list
      is the old one with the first unit of that id damaged. */
  function AttackResult(a: UnitValue, targetId: u16, units: seq<UnitValue>): (r: Result<(UnitValue, seq<UnitValue>), UnitError>)
    ensures r.Ok? ==> a.kind != Base && a.speed > 0 && !a.hasAttacked
    ensures r.Ok? ==> r.value.0 == a.(speed := a.speed - 1, hasAttacked := true)
    ensures r.Ok? ==> FindById(units, targetId).Some?
  {
    if a.kind == Base then Err(BaseCannotAttack)
    else if a.speed == 0 then Err(NoSpeedLeft)
    else if a.hasAttacked then Err(AlreadyAttacked)
    else match FindById(units, targetId)
      case None => Err(TargetNotFound)
      case Some(i) =>
        var t := units[i];
        if a.owner == t.owner then Err(AllyTarget)
        else if Distance(a, t.x, t.y) > a.attackRange then Err(OutOfAttackRange)
        else Ok((a.(speed := a.speed - 1, hasAttacked := true),
                 units[i := WithDamage(t, CalculateDamage(a.kind, t.kind))]))
  }

  /** `buildingTick`: throws on a Base; otherwise the building time drops by
      one while positive, and the tick reports whether it is now 0. */
  function TickResult(u: UnitValue): (r: Result<(UnitValue, bool), UnitError>)
    ensures r.Err? <==> u.kind == Base
    ensures r.Ok? ==> r.value.0 == u.(buildingTime := r.value.0.buildingTime)
    ensures r.Ok? ==> r.value.1 == (r.value.0.buildingTime == 0)
    ensures r.Ok? ==> r.value.0.buildingTime == if u.buildingTime > 0 then u.buildingTime - 1 else 0
  {
    if u.kind == Base then Err(BaseCannotBeBuilt)
    else
      var t := if u.buildingTime > 0 then u.buildingTime - 1 else u.buildingTime;
      Ok((u.(buildingTime := t), t == 0))
  }

  /** `reset`: the speed is the base speed again and the attack flag is clear. */
  function ResetState(u: UnitValue): (v: UnitValue)
    ensures v.speed == v.baseSpeed && !v.hasAttacked
    ensures v == u.(speed := u.baseSpeed, hasAttacked := false)
  {
    u.(speed := u.baseSpeed, hasAttacked := false)
  }

  /** `deploy`: only a unit that is itself a Base is placed on the base's
      cell; any other unit throws. */
  function DeployResult(u: UnitValue, base: UnitValue): (r: Result<UnitValue, UnitError>)
    ensures r.Ok? <==> u.kind == Base
    ensures r.Ok? ==> r.value == u.(x := base.x, y := base.y)
  {
    if u.kind == Base then Ok(u.(x := base.x, y := base.y)) else Err(NotDeployable)
  }

  /** One tick of the creation `c` held in the slot of base `b`, followed by
      `deploy` when the tick finishes it. The ticked creation is written back
      to the slot before `deploy` runs. */
  function AdvanceCreation(b: UnitValue, c: UnitValue): (UnitValue, Outcome<UnitError>) {
    match TickResult(c)
    case Err(e) => (b, Fail(e))
    case Ok((c', done)) =>
      var b' := b.(creation := Some(c'));
      if !done then (b', Pass)
      else match DeployResult(c', b')
        case Err(e) => (b', Fail(e))
        case Ok(_) => (b'.(creation := None), Pass)
  }

  /** `createUnit` called on `b` with `unit`. Only a Base creates; a creation
      in progress with a different id makes the base busy; otherwise the
      creation is stored (or kept) and ticked once. Because `deploy` accepts
      only a Base and `buildingTick` refuses one, the slot is never cleared:
      a call that returns normally always leaves a creation in progress. */
  function CreateResult(b: UnitValue, unit: UnitValue): (r: (UnitValue, Outcome<UnitError>))
    ensures b.kind != Base ==> r == (b, Fail(OnlyBaseCreates))
    ensures b.kind == Base && b.creation.Some? && b.creation.value.id != unit.id ==> r == (b, Fail(BaseBusy))
    ensures r.1.Pass? ==> r.0.creation.Some?
    ensures r.0.creation.None? ==> r.0 == b
  {
    if b.kind != Base then (b, Fail(OnlyBaseCreates))
    else match b.creation
      case Some(c) =>
        if c.id != unit.id then (b, Fail(BaseBusy))
        else AdvanceCreation(b, c)
      case None =>
        AdvanceCreation(b.(creation := Some(unit)), unit)
  }

  /** A unit object, updated in place by its actions. */
  class Unit {
    const id: u16
    const owner: bool
    const kind: UnitType
    const cost: u16
    const attackRange: u16
    const baseSpeed: u16
    var health: u16
    var speed: u16
    var buildingTime: u16
    var x: u16
    var y: u16
    var hasAttacked: bool
    var currentCreation: Option<UnitValue>

    /** The unit's whole state as a value (what a copy of the object holds). */
    function Value(): UnitValue
      reads this
    {
      UnitValue(id, owner, kind, health, speed, cost, attackRange, buildingTime,
                x, y, baseSpeed, hasAttacked, currentCreation)
    }

    /** The constructor, for a name the attribute table knows (see
        `Construct` and `New` for the name check). */
    constructor (owner: bool, id: u16, kind: UnitType)
      ensures Value() == NewUnit(owner, id, kind)
      ensures currentCreation == None
    {
      var a := Attributes(kind);
      this.id := id;
      this.owner := owner;
      this.kind := kind;
      health := a.health;
      speed := a.speed;
      cost := a.cost;
      attackRange := a.attackRange;
      buildingTime := a.buildingTime;
      x, y := 0, 0;
      baseSpeed := a.speed;
      hasAttacked := false;
      currentCreation := None;
    }

    /** The constructor called with a unit name: it throws for an unknown name. */
    static method New(owner: bool, id: u16, name: string) returns (r: Result<Unit, UnitError>)
      ensures r.Err? <==> Construct(owner, id, name).Err?
      ensures r.Err? ==> r.error == InvalidUnitName
      ensures r.Ok? ==> fresh(r.value) && r.value.Value() == Construct(owner, id, name).value
    {
      var t := TypeOfName(name);
      if t.None? {
        return Err(InvalidUnitName);
      }
      var u := new Unit(owner, id, t.value);
      return Ok(u);
    }

    /** `getCurrentCreation`: the unit in the build slot; the source's null
        pointer is `None`. */
    function GetCurrentCreation(): (r: Option<UnitValue>)
      reads this
      ensures r == Value().creation
      ensures r.None? <==> Value().creation.None?
    {
      currentCreation
    }

    /** `setPosition`: the coordinates are stored as `unsigned short`. */
    method SetPosition(x: int, y: int)
      modifies this
      ensures Value() == old(Value()).(x := ToU16(x), y := ToU16(y))
    {
      this.x := ToU16(x);
      this.y := ToU16(y);
    }

    /** `moveAction`: the checks, then the scan of `units` for an enemy on the
        target cell, then the update. A refused move changes nothing. */
    method MoveAction(x: u16, y: u16, units: seq<UnitValue>, m: Map) returns (outcome: Outcome<UnitError>)
      requires m.Valid()
      modifies this
      ensures MoveResult(old(Value()), x, y, units, m).Ok? ==>
                outcome == Pass && Value() == MoveResult(old(Value()), x, y, units, m).value
      ensures MoveResult(old(Value()), x, y, units, m).Err? ==>
                outcome == Fail(MoveResult(old(Value()), x, y, units, m).error) && Value() == old(Value())
    {
      var distance := Distance(Value(), x, y);
      if kind == Base {
        return Fail(BaseCannotMove);
      }
      if distance > speed {
        return Fail(TooFar);
      }
      if x >= m.Width() || y >= m.Height() {
        return Fail(OutsideMap);
      }
      var cell := m.GetCell(x, y);
      if cell.value == '9' {
        return Fail(Obstacle);
      }
      var i := 0;
      while i < |units|
        invariant 0 <= i <= |units|
        invariant forall j :: 0 <= j < i ==> !(units[j].x == x && units[j].y == y && units[j].owner != owner)
      {
        if units[i].x == x && units[i].y == y && units[i].owner != owner {
          return Fail(EnemyOccupied);
        }
        i := i + 1;
      }
      this.x := x;
      this.y := y;
      speed := speed - distance;
      return Pass;
    }

    /** `attackAction`: the checks, the search for the first unit with the
        target id, then the damage written into the caller's list. A refused
        attack changes neither the attacker nor the list. */
    method AttackAction(targetId: u16, units: array<UnitValue>) returns (outcome: Outcome<UnitError>)
      modifies this, units
      ensures AttackResult(old(Value()), targetId, old(units[..])).Ok? ==>
                (&& outcome == Pass
                 && Value() == AttackResult(old(Value()), targetId, old(units[..])).value.0
                 && units[..] == AttackResult(old(Value()), targetId, old(units[..])).value.1)
      ensures AttackResult(old(Value()), targetId, old(units[..])).Err? ==>
                (&& outcome == Fail(AttackResult(old(Value()), targetId, old(units[..])).error)
                 && Value() == old(Value()) && units[..] == old(units[..]))
    {
      if kind == Base {
        return Fail(BaseCannotAttack);
      }
      if speed == 0 {
        return Fail(NoSpeedLeft);
      }
      if hasAttacked {
        return Fail(AlreadyAttacked);
      }
      var found: Option<nat> := None;
      var i := 0;
      while i < units.Length
        invariant 0 <= i <= units.Length
        invariant forall j :: 0 <= j < i ==> units[j].id != targetId
      {
        if units[i].id == targetId {
          found := Some(i);
          break;
        }
        i := i + 1;
      }
      FindByIdFirst(units[..], targetId, found);
      if found.None? {
        return Fail(TargetNotFound);
      }
      var target := units[found.value];
      if owner == target.owner {
        return Fail(AllyTarget);
      }
      var distance := Distance(Value(), target.x, target.y);
      if distance > attackRange {
        return Fail(OutOfAttackRange);
      }
      var damage := CalculateDamage(kind, target.kind);
      units[found.value] := WithDamage(target, damage);
      speed := speed - 1;
      hasAttacked := true;
      return Pass;
    }

    /** `takeDamage` */
    method TakeDamage(amount: u16)
      modifies this
      ensures Value() == WithDamage(old(Value()), amount)
    {
      if amount >= health {
        health := 0;
      } else {
        health := health - amount;
      }
    }

    /** `buildingTick` */
    method BuildingTick() returns (r: Result<bool, UnitError>)
      modifies this
      ensures TickResult(old(Value())).Err? ==> r == Err(TickResult(old(Value())).error) && Value() == old(Value())
      ensures TickResult(old(Value())).Ok? ==>
                r == Ok(TickResult(old(Value())).value.1) && Value() == TickResult(old(Value())).value.0
    {
      if kind == Base {
        return Err(BaseCannotBeBuilt);
      }
      if buildingTime > 0 {
        buildingTime := buildingTime - 1;
      }
      return Ok(buildingTime == 0);
    }

    /** `reset` */
    method Reset()
      modifies this
      ensures Value() == ResetState(old(Value()))
    {
      speed := baseSpeed;
      hasAttacked := false;
    }

    /** `deploy`, given the home base's state. */
    method Deploy(base: UnitValue) returns (outcome: Outcome<UnitError>)
      modifies this
      ensures DeployResult(old(Value()), base).Ok? ==> outcome == Pass && Value() == DeployResult(old(Value()), base).value
      ensures DeployResult(old(Value()), base).Err? ==> outcome == Fail(NotDeployable) && Value() == old(Value())
    {
      if kind == Base {
        x := base.x;
        y := base.y;
        return Pass;
      }
      return Fail(NotDeployable);
    }

    /** `createUnit`: the build slot holds a copy of the unit being built. */
    method CreateUnit(unit: UnitValue) returns (outcome: Outcome<UnitError>)
      modifies this
      ensures Value() == CreateResult(old(Value()), unit).0
      ensures outcome == CreateResult(old(Value()), unit).1
    {
      if kind != Base {
        return Fail(OnlyBaseCreates);
      }
      if currentCreation.Some? {
        if currentCreation.value.id != unit.id {
          return Fail(BaseBusy);
        }
      } else {
        currentCreation := Some(unit);
      }
      var tick := TickResult(currentCreation.value);
      if tick.Err? {
        return Fail(tick.error);
      }
      currentCreation := Some(tick.value.0);
      if !tick.value.1 {
        return Pass;
      }
      var deployed := DeployResult(tick.value.0, Value());
      // the slot is cleared only when deploy returns normally
      currentCreation := if deployed.Ok? then None else currentCreation;
      return if deployed.Ok? then Pass else Fail(deployed.error);
    }
  }

  /** What the search loop of `attackAction` finds is `FindById`. */
  lemma FindByIdFirst(units: seq<UnitValue>, id: u16, found: Option<nat>)
    requires found.Some? ==> found.value < |units| && units[found.value].id == id
                             && forall j :: 0 <= j < found.value ==> units[j].id != id
    requires found.None? ==> forall j :: 0 <= j < |units| ==> units[j].id != id
    ensures FindById(units, id) == found
  {
  }
}
