/** The status file: the first line holds the player's gold, and each
    following line whose first character is a side's tag describes one unit
    of that side as `<tag> <type> <id> <x> <y> <hp>`. `readStatusFile` builds
    the own player from the 'E' lines and `getEnemyUnits` the enemy from the
    'P' lines. */
module Status {
  import opened Common
  import opened UnitTables
  import opened Units
  import opened Players

  /** One line of the file after extraction: its first character (None for
      an empty line), the number its start reads as (used for the gold line),
      and the type token and four integers the unit lines are read into. */
  datatype StatusLine = StatusLine(first: Option<char>, gold: u32, typeToken: string, id: int, x: int, y: int, hp: int)

  /** The status file as `readStatusFile` finds it: a stream that did not
      open, or one holding these lines. */
  datatype StatusFile = Unopened | Opened(lines: seq<StatusLine>)

  /** The exception thrown for a type initial missing from `unitTypeMap`. */
  datatype StatusError = InvalidUnitType(token: string)

  /** `unitType[0]`: the token's first character, or the terminating '\0'
      of an empty string. */
  function TokenInitial(token: string): (c: char)
    ensures |token| > 0 ==> c == token[0]
    ensures |token| == 0 ==> c == '\0'
  {
    if |token| == 0 then '\0' else token[0]
  }

  /** The line starts with the tag (`line.substr(0, 1) == prefix`). */
  predicate HasTag(l: StatusLine, tag: char) {
    l.first == Some(tag)
  }

  /** The unit a line describes, of type t: a fresh unit with the line's id,
      placed at its position, then damaged by its type's full health minus
      the line's hp. The id, the coordinates and that difference are each
      converted to `unsigned short`. */
  function LineUnit(owner: bool, l: StatusLine, t: UnitType): UnitValue {
    var u := NewUnit(owner, ToU16(l.id), t).(x := ToU16(l.x), y := ToU16(l.y));
    WithDamage(u, ToU16(u.health - l.hp))
  }

  /** One line: its initial must be in `unitTypeMap`. */
  function DecodeLine(owner: bool, l: StatusLine): (r: Result<UnitValue, StatusError>)
    ensures r.Err? <==> TypeOfInitial(TokenInitial(l.typeToken)).None?
    ensures r.Err? ==> r.error == InvalidUnitType(l.typeToken)
    ensures r.Ok? ==> var u := r.value;
      && Some(u.kind) == TypeOfInitial(TokenInitial(l.typeToken))
      && u.owner == owner && u.id == ToU16(l.id) && u.x == ToU16(l.x) && u.y == ToU16(l.y)
  {
    match TypeOfInitial(TokenInitial(l.typeToken))
    case None => Err(InvalidUnitType(l.typeToken))
    case Some(t) => Ok(LineUnit(owner, l, t))
  }

  /** The units the tagged lines describe, in file order; the first tagged
      line with an unknown initial makes the whole read fail. */
  function DecodeUnits(lines: seq<StatusLine>, tag: char, owner: bool): Result<seq<UnitValue>, StatusError> {
    if |lines| == 0 then Ok([])
    else
      var last := lines[|lines| - 1];
      match DecodeUnits(lines[..|lines| - 1], tag, owner)
      case Err(e) => Err(e)
      case Ok(us) =>
        if !HasTag(last, tag) then Ok(us)
        else match DecodeLine(owner, last)
          case Err(e) => Err(e)
          case Ok(u) => Ok(us + [u])
  }

  /** The lines carrying the tag, in file order. */
  function Tagged(lines: seq<StatusLine>, tag: char): (r: seq<StatusLine>)
    ensures forall l :: l in r ==> HasTag(l, tag)
    ensures |r| <= |lines|
  {
    if |lines| == 0 then []
    else
      var rest := Tagged(lines[..|lines| - 1], tag);
      if HasTag(lines[|lines| - 1], tag) then rest + [lines[|lines| - 1]] else rest
  }

  /** A line carries the tag but its initial is not in `unitTypeMap`. */
  predicate BadLine(l: StatusLine, tag: char) {
    HasTag(l, tag) && TypeOfInitial(TokenInitial(l.typeToken)).None?
  }

  // ---------------------------------------------------------------------
  // The two readers.

  /** The units a reader leaves in its player: the owner's Base, then the
      units of the tagged lines after the first one; or the exception. A
      stream that did not open, or is empty, leaves the Base alone. */
  function Roster(f: StatusFile, tag: char, owner: bool): Result<seq<UnitValue>, StatusError> {
    if f.Unopened? || |f.lines| == 0 then Ok([NewUnit(owner, IdOf(owner), Base)])
    else match DecodeUnits(f.lines[1..], tag, owner)
      case Err(e) => Err(e)
      case Ok(us) => Ok([NewUnit(owner, IdOf(owner), Base)] + us)
  }

  /** The gold `readStatusFile` sets: the first line's number, or the
      initial 0 (uninitialised in the source) when there is no first line. */
  function StatusGold(f: StatusFile): u32 {
    if f.Opened? && |f.lines| > 0 then f.lines[0].gold else 0
  }

  /** The body of the loop for one accepted line: build the unit, place it,
      damage it down to the line's hp, and append it to the player. */
  method AddLineUnit(player: Player, l: StatusLine, owner: bool, t: UnitType)
    modifies player
    ensures player.playerUnits == old(player.playerUnits) + [LineUnit(owner, l, t)]
    ensures player.playerGold == old(player.playerGold)
  {
    var unit := new Unit(owner, ToU16(l.id), t);
    unit.SetPosition(l.x, l.y);
    unit.TakeDamage(ToU16(unit.health - l.hp));
    player.AddUnitToPlayerUnits(unit.Value());
  }

  /** The loop over the unit lines: each line carrying the tag is decoded and
      appended to the player's units, in file order. */
  method ReadUnits(player: Player, lines: seq<StatusLine>, tag: char, owner: bool) returns (outcome: Outcome<StatusError>)
    modifies player
    ensures DecodeUnits(lines, tag, owner).Err? <==> outcome.Fail?
    ensures outcome.Fail? ==> outcome.error == DecodeUnits(lines, tag, owner).error
    ensures outcome.Pass? ==> player.playerUnits == old(player.playerUnits) + DecodeUnits(lines, tag, owner).value
    ensures player.playerGold == old(player.playerGold)
  {
    var i := 0;
    while i < |lines|
      invariant 0 <= i <= |lines|
      invariant DecodeUnits(lines[..i], tag, owner).Ok?
      invariant player.playerUnits == old(player.playerUnits) + DecodeUnits(lines[..i], tag, owner).value
      invariant player.playerGold == old(player.playerGold)
    {
      var l := lines[i];
      assert lines[..i + 1][..i] == lines[..i];
      if l.first == Some(tag) {
        var t := TypeOfInitial(TokenInitial(l.typeToken));
        if t.None? {
          DecodeErrorPersists(lines, i + 1, tag, owner);
          return Fail(InvalidUnitType(l.typeToken));
        }
        AddLineUnit(player, l, owner, t.value);
      }
      i := i + 1;
    }
    assert lines[..i] == lines;
    return Pass;
  }

  /** `readStatusFile`: the own player ("Player 2", id true); the first line
      sets its gold, the 'E' lines add its units after its Base. */
  method ReadStatusFile(f: StatusFile) returns (r: Result<Player, StatusError>)
    ensures r.Err? <==> Roster(f, 'E', true).Err?
    ensures r.Err? ==> r.error == Roster(f, 'E', true).error
    ensures r.Ok? ==> (fresh(r.value) && r.value.playerId && r.value.playerName == "Player 2"
      && r.value.playerGold == StatusGold(f) && r.value.playerUnits == Roster(f, 'E', true).value)
  {
    var player := new Player(true, "Player 2");
    if f.Opened? && |f.lines| > 0 {
      player.SetGold(f.lines[0].gold);
      var outcome := ReadUnits(player, f.lines[1..], 'E', true);
      if outcome.Fail? {
        return Err(outcome.error);
      }
    }
    return Ok(player);
  }

  /** `getEnemyUnits`: the enemy ("Player 1", id false); the first line is
      skipped, the 'P' lines add its units after its Base. */
  method GetEnemyUnits(f: StatusFile) returns (r: Result<Player, StatusError>)
    ensures r.Err? <==> Roster(f, 'P', false).Err?
    ensures r.Err? ==> r.error == Roster(f, 'P', false).error
    ensures r.Ok? ==> (fresh(r.value) && !r.value.playerId && r.value.playerName == "Player 1"
      && r.value.playerGold == 0 && r.value.playerUnits == Roster(f, 'P', false).value)
  {
    var player := new Player(false, "Player 1");
    if f.Opened? && |f.lines| > 0 {
      var outcome := ReadUnits(player, f.lines[1..], 'P', false);
      if outcome.Fail? {
        return Err(outcome.error);
      }
    }
    return Ok(player);
  }

  // ---------------------------------------------------------------------
  // What the readers compute.

  /** Once a prefix fails, reading more lines keeps that exception. */
  lemma {:induction false} DecodeErrorPersists(lines: seq<StatusLine>, i: nat, tag: char, owner: bool)
    requires i <= |lines| && DecodeUnits(lines[..i], tag, owner).Err?
    ensures DecodeUnits(lines, tag, owner) == DecodeUnits(lines[..i], tag, owner)
    decreases |lines| - i
  {
    if i < |lines| {
      assert lines[..i + 1][..i] == lines[..i];
      DecodeErrorPersists(lines, i + 1, tag, owner);
    } else {
      assert lines[..i] == lines;
    }
  }

  /** The read fails exactly when some tagged line has an unknown initial,
      and then with the token of the first such line. */
  lemma {:induction false} DecodeFailsIff(lines: seq<StatusLine>, tag: char, owner: bool)
    ensures DecodeUnits(lines, tag, owner).Err? <==> exists i :: 0 <= i < |lines| && BadLine(lines[i], tag)
    ensures DecodeUnits(lines, tag, owner).Err? ==>
      exists i :: 0 <= i < |lines| && BadLine(lines[i], tag)
        && (forall j :: 0 <= j < i ==> !BadLine(lines[j], tag))
        && DecodeUnits(lines, tag, owner).error == InvalidUnitType(lines[i].typeToken)
  {
    if |lines| > 0 {
      var front := lines[..|lines| - 1];
      DecodeFailsIff(front, tag, owner);
      forall i | 0 <= i < |front|
        ensures front[i] == lines[i]
      {
      }
      if DecodeUnits(front, tag, owner).Err? {
        var i :| 0 <= i < |front| && BadLine(front[i], tag)
          && (forall j :: 0 <= j < i ==> !BadLine(front[j], tag))
          && DecodeUnits(front, tag, owner).error == InvalidUnitType(front[i].typeToken);
        assert BadLine(lines[i], tag);
      } else if BadLine(lines[|lines| - 1], tag) {
        assert forall j :: 0 <= j < |lines| - 1 ==> !BadLine(lines[j], tag);
      } else {
        forall i | 0 <= i < |lines|
          ensures !BadLine(lines[i], tag)
        {
          if i < |front| {
            assert !BadLine(front[i], tag);
          }
        }
      }
    }
  }

  /** On success the units are exactly the tagged lines' units, one per
      tagged line, in file order; untagged lines contribute nothing. */
  lemma {:induction false} DecodeFollowsTagged(lines: seq<StatusLine>, tag: char, owner: bool)
    requires DecodeUnits(lines, tag, owner).Ok?
    ensures var us := DecodeUnits(lines, tag, owner).value; var ts := Tagged(lines, tag);
      && |us| == |ts|
      && forall k :: 0 <= k < |us| ==> DecodeLine(owner, ts[k]) == Ok(us[k])
  {
    if |lines| > 0 {
      DecodeFollowsTagged(lines[..|lines| - 1], tag, owner);
    }
  }

  /** Untagged lines may be removed without changing the result. */
  lemma {:induction false} DecodeIgnoresUntagged(lines: seq<StatusLine>, tag: char, owner: bool)
    ensures DecodeUnits(lines, tag, owner) == DecodeUnits(Tagged(lines, tag), tag, owner)
  {
    if |lines| > 0 {
      var front := lines[..|lines| - 1];
      var last := lines[|lines| - 1];
      DecodeIgnoresUntagged(front, tag, owner);
      if HasTag(last, tag) {
        var ts := Tagged(front, tag) + [last];
        assert Tagged(lines, tag) == ts;
        assert ts[..|ts| - 1] == Tagged(front, tag) && ts[|ts| - 1] == last;
      } else {
        assert Tagged(lines, tag) == Tagged(front, tag);
      }
    }
  }

  /** Appending a line only extends the units read so far. */
  lemma DecodeAppend(lines: seq<StatusLine>, l: StatusLine, tag: char, owner: bool)
    requires DecodeUnits(lines + [l], tag, owner).Ok?
    ensures DecodeUnits(lines, tag, owner).Ok?
    ensures var before := DecodeUnits(lines, tag, owner).value;
            var after := DecodeUnits(lines + [l], tag, owner).value;
      && (HasTag(l, tag) ==> after == before + [LineUnit(owner, l, TypeOfInitial(TokenInitial(l.typeToken)).value)])
      && (!HasTag(l, tag) ==> after == before)
  {
    assert (lines + [l])[..|lines|] == lines;
  }

  /** A line's hp becomes the unit's health when it lies between 1 and the
      type's full health. */
  lemma LineHealthExact(owner: bool, l: StatusLine, t: UnitType)
    requires 1 <= l.hp <= Attributes(t).health
    ensures LineUnit(owner, l, t).health == l.hp
  {
  }

  /** An hp of 0 or below (down to the full health minus 65535) gives a dead
      unit. */
  lemma LineHealthNonPositive(owner: bool, l: StatusLine, t: UnitType)
    requires Attributes(t).health - 0xFFFF <= l.hp <= 0
    ensures LineUnit(owner, l, t).health == 0
  {
  }

  /** An hp above the type's full health (up to 65536) makes the damage
      `getHealth() - hp` negative, which wraps to a large `unsigned short`
      damage, so the unit is read as dead rather than at full health. */
  lemma LineHealthAboveFull(owner: bool, l: StatusLine, t: UnitType)
    requires Attributes(t).health < l.hp <= 0x1_0000
    ensures LineUnit(owner, l, t).health == 0
  {
  }

  /** Whatever the hp, the unit's health never exceeds its type's and is
      either 0 or congruent to the hp modulo 2^16. */
  lemma LineHealthBounds(owner: bool, l: StatusLine, t: UnitType)
    ensures var h := LineUnit(owner, l, t).health;
      h <= Attributes(t).health && (h == 0 || (h - l.hp) % 0x1_0000 == 0)
  {
    var base := Attributes(t).health;
    var amount := ToU16(base - l.hp);
    assert (base - l.hp - amount) % 0x1_0000 == 0;
  }

  /** Every unit read is well formed and belongs to the side read. */
  lemma {:induction false} DecodedWellFormed(lines: seq<StatusLine>, tag: char, owner: bool)
    requires DecodeUnits(lines, tag, owner).Ok?
    ensures forall u :: u in DecodeUnits(lines, tag, owner).value ==> WellFormed(u) && u.owner == owner && u.creation == None
  {
    if |lines| > 0 {
      DecodedWellFormed(lines[..|lines| - 1], tag, owner);
    }
  }

  /** A roster read successfully starts with the owner's Base and then
      holds one unit per tagged line after the first, each that line's unit;
      a stream that did not open gives the Base alone. */
  lemma RosterShape(f: StatusFile, tag: char, owner: bool)
    requires Roster(f, tag, owner).Ok?
    ensures var us := Roster(f, tag, owner).value;
      && |us| >= 1 && us[0] == NewUnit(owner, IdOf(owner), Base)
      && (f.Unopened? ==> |us| == 1)
      && (f.Opened? && |f.lines| > 0 ==>
            var ts := Tagged(f.lines[1..], tag);
            |us| == 1 + |ts| && forall k :: 0 <= k < |ts| ==> DecodeLine(owner, ts[k]) == Ok(us[k + 1]))
  {
    if f.Opened? && |f.lines| > 0 {
      DecodeFollowsTagged(f.lines[1..], tag, owner);
    }
  }
}
