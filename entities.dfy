/** The game's objects whose fields change in place: the player, the dragon
    and the straight-line fireballs. Each method's ensures give the object's
    new value exactly, mostly as a function of module Rules. */
module Entities {
  import opened Rules

  /** The player piece. */
  class Player {
    var position: Cell

    constructor (position: Cell)
      ensures this.position == position
    {
      this.position := position;
    }

    /** Player.move. */
    method Move(dx: int, dy: int)
      modifies this
      ensures position == PlayerMove(old(position), dx, dy)
    {
      var newX := position.x + dx;
      var newY := position.y + dy;
      if 0 <= newX < BOARD_SIZE && 0 <= newY < BOARD_SIZE {
        position := Cell(newX, newY);
      }
    }
  }

  /** The dragon: its cell, its hit points and its fireball cooldown. */
  class Dragon {
    var position: Cell
    var hp: int
    var fireballCooldown: int

    function Value(): DragonState
      reads this
    {
      DragonState(position, hp, fireballCooldown)
    }

    constructor (position: Cell, hp: int)
      ensures Value() == DragonState(position, hp, 0)
    {
      this.position := position;
      this.hp := hp;
      fireballCooldown := 0;
    }

    /** Dragon.take_damage. */
    method TakeDamage()
      modifies this
      ensures Value() == old(Value()).(hp := old(hp) - 1)
    {
      hp := hp - 1;
    }

    /** Dragon.randomize_position, with the drawn cell as a parameter. */
    method RandomizePosition(target: Cell)
      requires OnBoard(target)
      modifies this
      ensures Value() == old(Value()).(position := target)
    {
      position := target;
    }

    /** Dragon.update_cooldown. */
    method UpdateCooldown()
      modifies this
      ensures Value() == old(Value()).(cooldown := CooldownTick(old(fireballCooldown)))
    {
      if fireballCooldown > 0 {
        fireballCooldown := fireballCooldown - 1;
      }
    }

    /** Dragon.shoot_fireballs: the volley is made of new fireball objects. */
    method ShootFireballs() returns (volley: seq<Fireball>)
      modifies this
      ensures Distinct(volley) && forall i :: 0 <= i < |volley| ==> fresh(volley[i])
      ensures ShotsOf(volley) == Shoot(old(Value())).volley
      ensures Value() == Shoot(old(Value())).dragon
    {
      volley := [];
      if 5 <= hp < 8 {
        if fireballCooldown == 0 {
          fireballCooldown := 5;
          var up := new Fireball(position, Up);
          var down := new Fireball(position, Down);
          var left := new Fireball(position, Left);
          var right := new Fireball(position, Right);
          volley := [up, down, left, right];
        }
      }
    }

    /** Dragon.spawn_fireballs, with the cells drawn for the random fireballs
        as a parameter; it changes nothing. */
    method SpawnFireballs(draws: seq<Cell>) returns (spawned: seq<Cell>)
      requires |draws| >= SpawnCount(hp)
      requires forall c :: c in draws ==> OnBoard(c)
      ensures spawned == Spawn(hp, draws)
    {
      spawned := [];
      if hp < 5 {
        spawned := draws[..6 - hp];
      }
    }
  }

  /** A straight-line fireball. */
  class Fireball {
    var position: Cell
    const direction: Direction

    function Value(): Shot
      reads this
    {
      Shot(position, direction)
    }

    constructor (position: Cell, direction: Direction)
      ensures Value() == Shot(position, direction)
    {
      this.position := position;
      this.direction := direction;
    }

    /** Fireball.move. */
    method Move() returns (moved: bool)
      modifies this
      ensures Flight(moved, Value()) == Advance(old(Value()))
    {
      var x := position.x;
      var y := position.y;
      match direction {
        case Up => y := y - 1;
        case Down => y := y + 1;
        case Left => x := x - 1;
        case Right => x := x + 1;
      }
      if 0 <= x < BOARD_SIZE && 0 <= y < BOARD_SIZE {
        position := Cell(x, y);
        return true;
      }
      return false;
    }
  }

  /** No fireball object occurs twice. */
  predicate Distinct(fs: seq<Fireball>)
  {
    forall i, j :: 0 <= i < j < |fs| ==> fs[i] != fs[j]
  }

  /** The values of a list of fireball objects. */
  ghost function ShotsOf(fs: seq<Fireball>): seq<Shot>
    reads fs
  {
    seq(|fs|, i reads fs requires 0 <= i < |fs| => fs[i].Value())
  }
}
