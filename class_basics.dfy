/**
 * The player class of the first class lesson: a position that `move`
 * advances by the direction times the player's speed. Console output of
 * `move` and `displayStatus` is not modelled; `displayStatus` returns the
 * fields it would print.
 */
module ClassBasics {

  /** One coordinate after a move: `pos += delta * speed`. */
  function Moved(pos: int, delta: int, speed: int): int
  {
    pos + delta * speed
  }

  class Player {
    var x: int
    var y: int
    var speed: int

    constructor (startX: int, startY: int, startSpeed: int)
      ensures x == startX && y == startY && speed == startSpeed
    {
      x := startX;
      y := startY;
      speed := startSpeed;
    }

    /** Moves by (dx, dy) steps of `speed`; the speed itself is unchanged. */
    method Move(dx: int, dy: int)
      modifies this`x, this`y
      ensures x == Moved(old(x), dx, speed) && y == Moved(old(y), dy, speed)
      ensures speed == old(speed)
    {
      x := x + dx * speed;
      y := y + dy * speed;
    }

    /** The values `displayStatus` prints; it changes no field. */
    method DisplayStatus() returns (sx: int, sy: int, sp: int)
      ensures sx == x && sy == y && sp == speed
    {
      sx, sy, sp := x, y, speed;
    }
  }

  /** Two moves equal one move by the summed deltas, and a zero move changes nothing. */
  lemma MovesCompose(pos: int, d1: int, d2: int, speed: int)
    ensures Moved(Moved(pos, d1, speed), d2, speed) == Moved(pos, d1 + d2, speed)
    ensures Moved(pos, 0, speed) == pos
  {
    assert d1 * speed + d2 * speed == (d1 + d2) * speed;
  }

  /** The lesson's player at (0, 0) with speed 2 moves by (1, 1) and ends at (2, 2). */
  method MoveScenario() returns (sx: int, sy: int, sp: int)
    ensures sx == 2 && sy == 2 && sp == 2
  {
    var p := new Player(0, 0, 2);
    p.Move(1, 1);
    sx, sy, sp := p.DisplayStatus();
  }
}
