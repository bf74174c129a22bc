/** The whole game as a value and one tick of it, stage by stage in the order
    Game.update_game runs them: the strike on the dragon, the cooldown, the
    volley, the random spawn, then the flight of the straight fireballs and the
    collision checks that decide `game_over` and `win`. */
module Session {
  import opened Rules

  /** Everything a Game holds that the simulation reads or writes. */
  datatype State = State(
    player: Cell,
    dragon: DragonState,
    fireballs: seq<Shot>,
    randoms: seq<Cell>,
    gameOver: bool,
    win: bool)

  /** One frame's worth of outside influence: the key deltas handle_events
      collects, the cell randomize_position would draw, and the cells the
      random fireballs of this frame would be drawn at. */
  datatype Input = Input(dx: int, dy: int, teleport: Cell, draws: seq<Cell>)

  /** The random draws of a frame lie in randint's range `[0, BOARD_SIZE)`. */
  predicate InRange(teleport: Cell, draws: seq<Cell>)
  {
    OnBoard(teleport) && forall c :: c in draws ==> OnBoard(c)
  }

  /** An input a running game can always be fed: draws in range and enough
      of them for the largest spawn a tick can make (six, when the tick
      brings the dragon to 0 hp). */
  predicate ValidInput(input: Input)
  {
    InRange(input.teleport, input.draws) && |input.draws| >= MAX_SPAWN
  }

  predicate AllValid(ins: seq<Input>)
  {
    forall k :: 0 <= k < |ins| ==> ValidInput(ins[k])
  }

  /** What stays true of every state a game passes through. */
  predicate Inv(s: State)
  {
    && OnBoard(s.player)
    && OnBoard(s.dragon.position)
    && (forall t :: t in s.fireballs ==> OnBoard(t.position))
    && (forall c :: c in s.randoms ==> OnBoard(c))
    && 0 <= s.dragon.cooldown <= VOLLEY_DELAY
    && (!s.gameOver ==> s.dragon.hp >= 1)
    && (s.win ==> s.gameOver && s.dragon.hp <= 0)
  }

  /** Game.__init__: the player in the corner, a fresh dragon at a random
      cell, no fireballs, the game running. */
  function Init(dragonAt: Cell): (s: State)
    requires OnBoard(dragonAt)
    ensures Inv(s) && !s.gameOver && !s.win
    ensures s.fireballs == [] && s.randoms == []
    ensures s.dragon.hp == DRAGON_HP && s.dragon.cooldown == 0
  {
    State(Cell(0, 0), DragonState(dragonAt, DRAGON_HP, 0), [], [], false, false)
  }

  /** The straight fireballs that survive their move, moved, in their order. */
  function Kept(shots: seq<Shot>): (r: seq<Shot>)
    ensures |r| <= |shots|
    decreases |shots|
  {
    if shots == [] then []
    else
      var last := Advance(shots[|shots| - 1]);
      Kept(shots[..|shots| - 1]) + (if last.moved then [last.shot] else [])
  }

  /** Every kept fireball is on the board: a move that would leave it fails. */
  lemma {:induction false} KeptOnBoard(shots: seq<Shot>)
    ensures forall t :: t in Kept(shots) ==> OnBoard(t.position)
    decreases |shots|
  {
    if shots != [] {
      KeptOnBoard(shots[..|shots| - 1]);
    }
  }

  /** Some straight fireball stands on `p` once it has tried to move. */
  predicate StraightHit(shots: seq<Shot>, p: Cell)
    decreases |shots|
  {
    shots != [] &&
    (StraightHit(shots[..|shots| - 1], p) || Advance(shots[|shots| - 1]).shot.position == p)
  }

  /** Some fireball, straight or random, burns the player this tick. */
  predicate Burned(s: State)
  {
    StraightHit(s.fireballs, s.player) || s.player in s.randoms
  }

  /** Game.update_fireballs. */
  function UpdateFireballs(s: State): State
  {
    var hit := Burned(s);
    s.(fireballs := Kept(s.fireballs), gameOver := s.gameOver || hit, win := s.win && !hit)
  }

  /** The first stage of Game.update_game: a player on the dragon's cell
      costs it one hit point and sends it to `teleport`; at 0 hp or less the
      game is over and won. */
  function Strike(s: State, teleport: Cell): State
  {
    if s.player == s.dragon.position then
      var d := s.dragon.(position := teleport, hp := s.dragon.hp - 1);
      if d.hp <= 0 then s.(dragon := d, gameOver := true, win := true) else s.(dragon := d)
    else s
  }

  /** The dragon's shooting in update_game: cooldown first, then the volley. */
  function Fire(d: DragonState): Shooting
  {
    Shoot(d.(cooldown := CooldownTick(d.cooldown)))
  }

  /** The volley shot after the strike. */
  function VolleyOf(s: State, teleport: Cell): Shooting
  {
    Fire(Strike(s, teleport).dragon)
  }

  /** Random draws enough for the spawn after the strike. */
  predicate Supplied(s: State, teleport: Cell, draws: seq<Cell>)
  {
    InRange(teleport, draws) && |draws| >= SpawnCount(Strike(s, teleport).dragon.hp)
  }

  /** The middle stage of Game.update_game, on the struck state: the cooldown
      ticks, the new volley is appended to the straight fireballs and the new
      random fireballs to the random ones. */
  function Arm(s: State, draws: seq<Cell>): State
    requires forall c :: c in draws ==> OnBoard(c)
    requires |draws| >= SpawnCount(s.dragon.hp)
  {
    var shooting := Fire(s.dragon);
    s.(dragon := shooting.dragon,
       fireballs := s.fireballs + shooting.volley,
       randoms := s.randoms + Spawn(shooting.dragon.hp, draws))
  }

  /** The state update_game hands to update_fireballs. */
  function Armed(s: State, teleport: Cell, draws: seq<Cell>): State
    requires Supplied(s, teleport, draws)
  {
    Arm(Strike(s, teleport), draws)
  }

  /** Game.update_game. */
  function UpdateGame(s: State, teleport: Cell, draws: seq<Cell>): State
    requires Supplied(s, teleport, draws)
  {
    UpdateFireballs(Armed(s, teleport, draws))
  }

  /** The player after handle_events' move. */
  function Moved(s: State, input: Input): State
  {
    s.(player := PlayerMove(s.player, input.dx, input.dy))
  }

  /** Enough draws for a tick: the dragon loses at most one hp before it spawns. */
  predicate TickSupplied(s: State, input: Input)
  {
    InRange(input.teleport, input.draws) && |input.draws| >= SpawnCount(s.dragon.hp - 1)
  }

  /** One pass of Game.run's loop while the game is not over: the move from
      handle_events, then update_game. */
  function Tick(s: State, input: Input): State
    requires !s.gameOver && TickSupplied(s, input)
  {
    UpdateGame(Moved(s, input), input.teleport, input.draws)
  }

  /** The straight volley shot during the tick. */
  function TickVolley(s: State, input: Input): seq<Shot>
  {
    VolleyOf(Moved(s, input), input.teleport).volley
  }

  /** Game.run: ticks on the inputs in turn until the game is over. Every
      state on the way keeps the invariant, and random fireballs only
      accumulate. */
  function Run(s: State, ins: seq<Input>): (r: State)
    requires Inv(s) && AllValid(ins)
    ensures Inv(r)
    ensures s.randoms <= r.randoms
    decreases |ins|
  {
    if ins == [] || s.gameOver then s
    else
      TickPreservesInv(s, ins[0]);
      Run(Tick(s, ins[0]), ins[1..])
  }

  /** A tick keeps every position on the board, the cooldown in [0, 5] and the
      flags consistent, and only appends to the random fireballs. */
  lemma TickPreservesInv(s: State, input: Input)
    requires Inv(s) && !s.gameOver && ValidInput(input)
    ensures TickSupplied(s, input)
    ensures Inv(Tick(s, input))
    ensures s.randoms <= Tick(s, input).randoms
  {
    var m := Moved(s, input);
    var a := Armed(m, input.teleport, input.draws);
    KeptOnBoard(a.fireballs);
    assert Inv(a) by {
      assert forall t :: t in a.fireballs ==> t in s.fireballs || t in VolleyOf(m, input.teleport).volley;
    }
  }
}
