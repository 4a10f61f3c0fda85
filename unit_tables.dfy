/** The constant tables that drive the unit rules: the eight unit types, the
    initial-to-name table used by the status decoder, the per-type attribute
    table and the attacker-by-defender damage table. */
module UnitTables {
  import opened Common

  /** The closed set of unit names accepted by the unit constructor. */
  datatype UnitType = Base | Worker | Swordsman | Knight | Ram | Catapult | Pikeman | Archer

  /** The full name of a unit type, as stored in a unit's `name`. */
  function Name(t: UnitType): string {
    match t
    case Base => "Base"
    case Worker => "Worker"
    case Swordsman => "Swordsman"
    case Knight => "Knight"
    case Ram => "Ram"
    case Catapult => "Catapult"
    case Pikeman => "Pikeman"
    case Archer => "Archer"
  }

  /** Lookup of a name in the attribute table; it fails exactly on the names
      that are not one of the eight. */
  function TypeOfName(name: string): (r: Option<UnitType>)
    ensures forall t :: r == Some(t) <==> name == Name(t)
  {
    if name == "Base" then Some(Base)
    else if name == "Worker" then Some(Worker)
    else if name == "Swordsman" then Some(Swordsman)
    else if name == "Knight" then Some(Knight)
    else if name == "Ram" then Some(Ram)
    else if name == "Catapult" then Some(Catapult)
    else if name == "Pikeman" then Some(Pikeman)
    else if name == "Archer" then Some(Archer)
    else None
  }

  /** The `unitTypeMap` table: abbreviated initial to unit type. Every key is
      the first letter of the name it maps to, and every name's first letter
      is a key mapping back to it. */
  function TypeOfInitial(c: char): (r: Option<UnitType>)
    ensures forall t :: r == Some(t) <==> c == Name(t)[0]
  {
    match c
    case 'B' => Some(Base)
    case 'W' => Some(Worker)
    case 'S' => Some(Swordsman)
    case 'K' => Some(Knight)
    case 'R' => Some(Ram)
    case 'C' => Some(Catapult)
    case 'P' => Some(Pikeman)
    case 'A' => Some(Archer)
    case _ => None
  }

  /** The eight names are pairwise distinct, so a name determines its type. */
  lemma NamesDistinct(t1: UnitType, t2: UnitType)
    ensures Name(t1) == Name(t2) ==> t1 == t2
    ensures Name(t1)[0] == Name(t2)[0] ==> t1 == t2
  {
    if Name(t1)[0] == Name(t2)[0] {
      assert TypeOfInitial(Name(t1)[0]) == Some(t2);
    }
  }

  /** One row of the attribute table. */
  datatype UnitAttributes = UnitAttributes(health: u16, speed: u16, cost: u16, attackRange: u16, buildingTime: u16)

  /** The attribute table. Only a Base has no speed, and only a Base has no
      building time. */
  function Attributes(t: UnitType): (a: UnitAttributes)
    ensures a.speed == 0 <==> t == Base
    ensures a.buildingTime == 0 <==> t == Base
    ensures a.health > 0
  {
    match t
    case Knight => UnitAttributes(90, 5, 400, 1, 5)
    case Swordsman => UnitAttributes(60, 2, 250, 5, 3)
    case Archer => UnitAttributes(40, 2, 250, 5, 3)
    case Pikeman => UnitAttributes(50, 2, 200, 2, 3)
    case Ram => UnitAttributes(90, 2, 500, 1, 4)
    case Catapult => UnitAttributes(50, 2, 800, 7, 6)
    case Worker => UnitAttributes(20, 2, 100, 1, 2)
    case Base => UnitAttributes(200, 0, 0, 0, 0)
  }

  /** The damage table. The attacker `Base` has no row; every other row lists
      all eight defenders. */
  function DamageEntry(attacker: UnitType, defender: UnitType): (r: Option<u16>)
    ensures r.None? <==> attacker == Base
  {
    match attacker
    case Base => None
    case Knight =>
      Some(match defender
        case Knight => 35 case Swordsman => 35 case Archer => 35 case Pikeman => 35
        case Catapult => 35 case Ram => 50 case Worker => 35 case Base => 35)
    case Swordsman =>
      Some(match defender
        case Knight => 30 case Swordsman => 30 case Archer => 30 case Pikeman => 20
        case Catapult => 20 case Ram => 30 case Worker => 30 case Base => 30)
    case Archer =>
      Some(match defender
        case Knight => 15 case Swordsman => 15 case Archer => 15 case Pikeman => 15
        case Catapult => 10 case Ram => 10 case Worker => 15 case Base => 15)
    case Pikeman =>
      Some(match defender
        case Knight => 35 case Swordsman => 15 case Archer => 15 case Pikeman => 15
        case Catapult => 15 case Ram => 10 case Worker => 15 case Base => 10)
    case Catapult =>
      Some(match defender
        case Knight => 40 case Swordsman => 40 case Archer => 40 case Pikeman => 40
        case Catapult => 40 case Ram => 40 case Worker => 40 case Base => 50)
    case Ram =>
      Some(match defender
        case Knight => 10 case Swordsman => 10 case Archer => 10 case Pikeman => 10
        case Catapult => 10 case Ram => 10 case Worker => 10 case Base => 50)
    case Worker =>
      Some(match defender
        case Knight => 5 case Swordsman => 5 case Archer => 5 case Pikeman => 5
        case Catapult => 5 case Ram => 5 case Worker => 5 case Base => 1)
  }

  /** `calculateDamage`: the table entry, or 0 when the attacker has no row.
      Every listed entry is positive and at most 50. */
  function CalculateDamage(attacker: UnitType, defender: UnitType): (d: u16)
    ensures d == 0 <==> attacker == Base
    ensures d <= 50
    ensures DamageEntry(attacker, defender).Some? ==> d == DamageEntry(attacker, defender).value
  {
    DamageEntry(attacker, defender).GetOr(0)
  }

  /** The damage an Archer deals a Swordsman. */
  lemma ArcherHitsSwordsman()
    ensures CalculateDamage(Archer, Swordsman) == 15
  {
  }
}
