/** The board and the per-entity rules of the grid dragon game: how the player
    steps, how a straight fireball flies, and how the dragon's cooldown, volley
    and random spawn depend on its hit points. Everything here is a value. */
module Rules {

  /** Cells per side of the square board. */
  const BOARD_SIZE: int := 25
  /** Hit points of a fresh dragon. */
  const DRAGON_HP: int := 10
  /** Cooldown set by a volley of straight fireballs. */
  const VOLLEY_DELAY: int := 5
  /** Most random fireballs one tick of a running game can spawn: six, on the
      tick that brings the dragon down to 0 hp. */
  const MAX_SPAWN: int := 6

  /** A board position, `(x, y)` in the source; y grows downwards. */
  datatype Cell = Cell(x: int, y: int)

  predicate OnBoard(c: Cell)
  {
    0 <= c.x < BOARD_SIZE && 0 <= c.y < BOARD_SIZE
  }

  /** Player.move: the whole step is taken when its destination is on the
      board, and none of it otherwise (no per-axis clamp, no wrap-around). */
  function PlayerMove(p: Cell, dx: int, dy: int): (q: Cell)
    ensures OnBoard(p) ==> OnBoard(q)
    ensures q == p || q == Cell(p.x + dx, p.y + dy)
    ensures OnBoard(Cell(p.x + dx, p.y + dy)) ==> q == Cell(p.x + dx, p.y + dy)
    ensures !OnBoard(Cell(p.x + dx, p.y + dy)) ==> q == p
  {
    var target := Cell(p.x + dx, p.y + dy);
    if OnBoard(target) then target else p
  }

  /** The four directions a straight fireball can fly in. */
  datatype Direction = Up | Down | Left | Right

  /** The cell one step from `c` in direction `d`. */
  function Neighbor(c: Cell, d: Direction): Cell
  {
    match d
    case Up => Cell(c.x, c.y - 1)
    case Down => Cell(c.x, c.y + 1)
    case Left => Cell(c.x - 1, c.y)
    case Right => Cell(c.x + 1, c.y)
  }

  /** Cells that differ by exactly one step along one axis. */
  predicate Adjacent(a: Cell, b: Cell)
  {
    (a.x == b.x && (a.y - b.y == 1 || b.y - a.y == 1)) ||
    (a.y == b.y && (a.x - b.x == 1 || b.x - a.x == 1))
  }

  /** The value of a straight-line fireball. */
  datatype Shot = Shot(position: Cell, direction: Direction)

  /** What Fireball.move returns and the fireball it leaves behind. */
  datatype Flight = Flight(moved: bool, shot: Shot)

  /** Fireball.move: one step in the fireball's direction when that stays on
      the board; otherwise the fireball stays where it is and reports failure. */
  function Advance(s: Shot): (r: Flight)
    ensures r.shot.direction == s.direction
    ensures r.moved <==> OnBoard(Neighbor(s.position, s.direction))
    ensures r.moved ==> Adjacent(s.position, r.shot.position) && OnBoard(r.shot.position)
    ensures r.moved ==> r.shot.position == Neighbor(s.position, s.direction)
    ensures !r.moved ==> r.shot == s
  {
    var next := Neighbor(s.position, s.direction);
    if OnBoard(next) then Flight(true, Shot(next, s.direction)) else Flight(false, s)
  }

  /** The dragon's value: where it is, its hit points, its fireball cooldown. */
  datatype DragonState = DragonState(position: Cell, hp: int, cooldown: int)

  /** Dragon.update_cooldown: counts a positive cooldown down by one. */
  function CooldownTick(c: int): (r: int)
    ensures c >= 0 ==> 0 <= r
    ensures c > 0 ==> r == c - 1
    ensures c <= 0 ==> r == c
  {
    if c > 0 then c - 1 else c
  }

  /** The hit points at which the dragon shoots straight volleys. */
  predicate InVolleyWindow(hp: int)
  {
    5 <= hp < 8
  }

  /** What Dragon.shoot_fireballs returns and the dragon it leaves behind. */
  datatype Shooting = Shooting(volley: seq<Shot>, dragon: DragonState)

  /** Dragon.shoot_fireballs: with hp in [5, 8) and no cooldown pending, four
      fireballs leave the dragon's cell (up, down, left, right, in that order)
      and the cooldown restarts; in every other case nothing happens. */
  function Shoot(d: DragonState): (r: Shooting)
    ensures r.dragon.position == d.position && r.dragon.hp == d.hp
    ensures r.volley != [] <==> InVolleyWindow(d.hp) && d.cooldown == 0
    ensures r.volley != [] ==>
      && |r.volley| == 4
      && (forall t :: t in r.volley ==> t.position == d.position)
      && r.volley[0].direction == Up && r.volley[1].direction == Down
      && r.volley[2].direction == Left && r.volley[3].direction == Right
      && r.dragon.cooldown == VOLLEY_DELAY
    ensures r.volley == [] ==> r.dragon == d
  {
    if InVolleyWindow(d.hp) && d.cooldown == 0 then
      var at := d.position;
      Shooting([Shot(at, Up), Shot(at, Down), Shot(at, Left), Shot(at, Right)],
               d.(cooldown := VOLLEY_DELAY))
    else
      Shooting([], d)
  }

  /** How many random fireballs Dragon.spawn_fireballs creates at `hp`. */
  function SpawnCount(hp: int): nat
  {
    if hp < 5 then 6 - hp else 0
  }

  /** Dragon.spawn_fireballs: below 5 hp, `6 - hp` random fireballs, the k-th
      at the k-th random cell drawn (FireballRandom.__init__); none otherwise. */
  function Spawn(hp: int, draws: seq<Cell>): (r: seq<Cell>)
    requires |draws| >= SpawnCount(hp)
    requires forall c :: c in draws ==> OnBoard(c)
    ensures hp < 5 ==> |r| == 6 - hp
    ensures hp >= 5 ==> r == []
    ensures r == draws[..|r|]
    ensures forall c :: c in r ==> OnBoard(c)
  {
    draws[..SpawnCount(hp)]
  }
}
