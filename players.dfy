/** A player's roster: its id, name, gold and the ordered list of units it
    owns, which starts with its Base. */
module Players {
  import opened Common
  import opened UnitTables
  import opened Units

  /** The unsigned short id a player's bool id converts to. */
  function IdOf(playerId: bool): u16 {
    if playerId then 1 else 0
  }

  class Player {
    const playerId: bool
    const playerName: string
    var playerGold: u32
    var playerUnits: seq<UnitValue>

    /** The constructor seeds the roster with one Base, whose owner is the
        player's id and whose unit id is that id converted to a number. (The
        source leaves the gold uninitialised; here it starts at 0.) */
    constructor (id: bool, name: string)
      ensures playerId == id && playerName == name && playerGold == 0
      ensures playerUnits == [NewUnit(id, IdOf(id), Base)]
      ensures |playerUnits| == 1 && playerUnits[0].kind == Base
              && playerUnits[0].owner == id && playerUnits[0].id == IdOf(id)
    {
      playerId := id;
      playerName := name;
      playerGold := 0;
      playerUnits := [NewUnit(id, IdOf(id), Base)];
    }

    /** `getID`. The field is a `const`, so the constructor's `ensures` fixes
        the result for the object's whole life. */
    function GetID(): (r: bool)
      ensures r == playerId
    {
      playerId
    }

    /** `getName`. The field is a `const`, so the constructor's `ensures`
        fixes the result for the object's whole life. */
    function GetName(): (r: string)
      ensures r == playerName
    {
      playerName
    }

    /** `getPlayerUnits`: a copy of the roster, in order. The roster is never
        empty and starts with the Base; see the constructor and
        `AddUnitToPlayerUnits`, the only operations that change it. */
    function GetPlayerUnits(): (r: seq<UnitValue>)
      reads this
      ensures r == playerUnits
      ensures |r| == |playerUnits| && forall i :: 0 <= i < |r| ==> r[i] == playerUnits[i]
    {
      playerUnits
    }

    /** `getGold`, declared in the header and not defined in the source; here
        it returns the gold `setGold` last stored. */
    function GetGold(): (r: u32)
      reads this
      ensures r == playerGold
    {
      playerGold
    }

    /** `setGold` */
    method SetGold(amount: u32)
      modifies this
      ensures GetGold() == amount
      ensures playerUnits == old(playerUnits)
    {
      playerGold := amount;
    }

    /** `addUnitToPlayerUnits`: the unit is appended after the existing ones,
        which are unchanged. */
    method AddUnitToPlayerUnits(unit: UnitValue)
      modifies this
      ensures playerUnits == old(playerUnits) + [unit]
      ensures |playerUnits| == |old(playerUnits)| + 1 && playerUnits[|playerUnits| - 1] == unit
      ensures forall i :: 0 <= i < |old(playerUnits)| ==> playerUnits[i] == old(playerUnits)[i]
      ensures playerGold == old(playerGold)
    {
      playerUnits := playerUnits + [unit];
    }
  }
}
