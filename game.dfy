/** The Game object: the state it owns and the tick that updates it in
    place. Every method is proved to do to the game's value (View) what the
    matching function of module Session describes. */
module DragonGame {
  import opened Rules
  import opened Session
  import opened Entities

  /** Kept on one more fireball: the old survivors, then this one if it moved. */
  lemma KeptSnoc(shots: seq<Shot>, i: int)
    requires 0 <= i < |shots|
    ensures Kept(shots[..i + 1]) ==
      Kept(shots[..i]) + (if Advance(shots[i]).moved then [Advance(shots[i]).shot] else [])
  {
    assert shots[..i + 1][..i] == shots[..i];
  }

  /** StraightHit on one more fireball. */
  lemma StraightHitSnoc(shots: seq<Shot>, i: int, p: Cell)
    requires 0 <= i < |shots|
    ensures StraightHit(shots[..i + 1], p) ==
      (StraightHit(shots[..i], p) || Advance(shots[i]).shot.position == p)
  {
    assert shots[..i + 1][..i] == shots[..i];
  }

  /** The values of two lists of fireball objects, one after the other. */
  lemma ShotsOfAppend(a: seq<Fireball>, b: seq<Fireball>)
    ensures ShotsOf(a + b) == ShotsOf(a) + ShotsOf(b)
  {
  }

  /** The loop of update_fireballs over the straight fireball objects. */
  method FlyAll(fs: seq<Fireball>, at: Cell) returns (kept: seq<Fireball>, hit: bool)
    requires Distinct(fs)
    modifies fs
    ensures Distinct(kept) && forall f :: f in kept ==> f in fs
    ensures ShotsOf(kept) == Kept(old(ShotsOf(fs)))
    ensures hit == StraightHit(old(ShotsOf(fs)), at)
  {
    ghost var before := ShotsOf(fs);
    ghost var shots: seq<Shot> := [];
    ghost var origin: seq<int> := [];
    kept, hit := [], false;
    var i := 0;
    while i < |fs|
      invariant 0 <= i <= |fs|
      invariant forall k :: i <= k < |fs| ==> fs[k].Value() == before[k]
      invariant |origin| == |kept|
      invariant forall m :: 0 <= m < |kept| ==> 0 <= origin[m] < i && kept[m] == fs[origin[m]]
      invariant forall a, b :: 0 <= a < b < |origin| ==> origin[a] < origin[b]
      invariant |kept| == |shots|
      invariant forall m :: 0 <= m < |kept| ==> kept[m].Value() == shots[m]
      invariant shots == Kept(before[..i])
      invariant hit == StraightHit(before[..i], at)
    {
      var fireball := fs[i];
      var moved := fireball.Move();
      ghost var flight := Advance(before[i]);
      assert moved == flight.moved && fireball.Value() == flight.shot;
      KeptSnoc(before, i);
      StraightHitSnoc(before, i, at);
      if moved {
        kept := kept + [fireball];
        shots := shots + [flight.shot];
        origin := origin + [i];
      }
      if fireball.position == at {
        hit := true;
      }
      i := i + 1;
    }
    assert before[..i] == before;
    assert ShotsOf(kept) == shots;
  }

  class Game {
    var player: Player
    var dragon: Dragon
    var fireballs: seq<Fireball>
    var fireballRandoms: seq<Cell>
    var gameOver: bool
    var win: bool

    /** Every straight fireball object is in the list once. */
    ghost predicate Valid()
      reads this
    {
      Distinct(fireballs)
    }

    /** The game's value. */
    ghost function View(): State
      reads this, player, dragon, fireballs
    {
      State(player.position, dragon.Value(), ShotsOf(fireballs), fireballRandoms, gameOver, win)
    }

    /** Game.__init__ without the window, clock and font; `dragonAt` is the
        dragon's randomly drawn start cell. */
    constructor (dragonAt: Cell)
      requires OnBoard(dragonAt)
      ensures fresh(player) && fresh(dragon)
      ensures Valid() && View() == Init(dragonAt)
    {
      player := new Player(Cell(0, 0));
      dragon := new Dragon(dragonAt, DRAGON_HP);
      fireballs := [];
      fireballRandoms := [];
      gameOver := false;
      win := false;
    }

    /** Game.update_fireballs: the straight fireballs fly, then the random
        ones are checked. */
    method UpdateFireballs()
      requires Valid()
      modifies this, fireballs
      ensures Valid() && player == old(player) && dragon == old(dragon)
      ensures forall i :: 0 <= i < |fireballs| ==> fireballs[i] in old(fireballs)
      ensures View() == Session.UpdateFireballs(old(View()))
    {
      FlyStraight();
      CheckRandomHits();
    }

    /** The first loop of update_fireballs: every straight fireball moves, the
        ones whose move succeeded are kept in order, and one that ends on the
        player's cell ends the game as a loss. */
    method FlyStraight()
      requires Valid()
      modifies this, fireballs
      ensures Valid() && player == old(player) && dragon == old(dragon)
      ensures fireballRandoms == old(fireballRandoms)
      ensures forall i :: 0 <= i < |fireballs| ==> fireballs[i] in old(fireballs)
      ensures ShotsOf(fireballs) == Kept(old(ShotsOf(fireballs)))
      ensures gameOver == (old(gameOver) || StraightHit(old(ShotsOf(fireballs)), player.position))
      ensures win == (old(win) && !StraightHit(old(ShotsOf(fireballs)), player.position))
    {
      var kept, hit := FlyAll(fireballs, player.position);
      fireballs := kept;
      if hit {
        gameOver := true;
        win := false;
      }
    }

    /** The second loop of update_fireballs: a random fireball on the
        player's cell ends the game as a loss. */
    method CheckRandomHits()
      modifies this
      ensures fireballs == old(fireballs) && fireballRandoms == old(fireballRandoms)
      ensures player == old(player) && dragon == old(dragon)
      ensures gameOver == (old(gameOver) || player.position in fireballRandoms)
      ensures win == (old(win) && player.position !in fireballRandoms)
    {
      var j := 0;
      while j < |fireballRandoms|
        invariant 0 <= j <= |fireballRandoms|
        invariant fireballs == old(fireballs) && fireballRandoms == old(fireballRandoms)
        invariant player == old(player) && dragon == old(dragon)
        invariant gameOver == (old(gameOver) || player.position in fireballRandoms[..j])
        invariant win == (old(win) && player.position !in fireballRandoms[..j])
      {
        assert fireballRandoms[..j + 1] == fireballRandoms[..j] + [fireballRandoms[j]];
        if fireballRandoms[j] == player.position {
          gameOver := true;
          win := false;
        }
        j := j + 1;
      }
      assert fireballRandoms[..j] == fireballRandoms;
    }

    /** Game.update_game, with the teleport cell and the random fireballs'
        cells drawn in advance. */
    method UpdateGame(teleport: Cell, draws: seq<Cell>)
      requires Valid() && Supplied(View(), teleport, draws)
      modifies this, dragon, fireballs
      ensures Valid() && player == old(player) && dragon == old(dragon)
      ensures forall i :: 0 <= i < |fireballs| ==> fireballs[i] in old(fireballs) || fresh(fireballs[i])
      ensures View() == Session.UpdateGame(old(View()), teleport, draws)
    {
      StrikeDragon(teleport);
      ArmDragon(draws);
      UpdateFireballs();
    }

    /** The first stage of update_game: the player on the dragon's cell hurts
        it and makes it teleport; the killing blow wins the game. */
    method StrikeDragon(teleport: Cell)
      requires OnBoard(teleport)
      modifies this, dragon
      ensures player == old(player) && dragon == old(dragon)
      ensures fireballs == old(fireballs)
      ensures View() == Strike(old(View()), teleport)
    {
      if player.position == dragon.position {
        dragon.TakeDamage();
        dragon.RandomizePosition(teleport);
        if dragon.hp <= 0 {
          gameOver := true;
          win := true;
        }
      }
    }

    /** The middle stage of update_game: the cooldown ticks, the volley joins
        the straight fireballs and the spawn joins the random ones. */
    method ArmDragon(draws: seq<Cell>)
      requires Valid()
      requires forall c :: c in draws ==> OnBoard(c)
      requires |draws| >= SpawnCount(dragon.hp)
      modifies this, dragon
      ensures Valid() && player == old(player) && dragon == old(dragon)
      ensures forall i :: 0 <= i < |fireballs| ==> fireballs[i] in old(fireballs) || fresh(fireballs[i])
      ensures View() == Arm(old(View()), draws)
    {
      dragon.UpdateCooldown();
      var volley := dragon.ShootFireballs();
      forall i, j | 0 <= i < |fireballs| && 0 <= j < |volley|
        ensures fireballs[i] != volley[j]
      {
        assert fresh(volley[j]);
      }
      assert Distinct(fireballs + volley);
      ShotsOfAppend(fireballs, volley);
      fireballs := fireballs + volley;
      var spawned := dragon.SpawnFireballs(draws);
      fireballRandoms := fireballRandoms + spawned;
    }

    /** The movement part of Game.handle_events: a key delta moves the player. */
    method HandleEvents(dx: int, dy: int)
      modifies player
      ensures player.position == PlayerMove(old(player.position), dx, dy)
    {
      if dx != 0 || dy != 0 {
        player.Move(dx, dy);
      }
    }

    /** One pass of Game.run's loop while the game is not over. */
    method Step(input: Input)
      requires Valid() && !gameOver && TickSupplied(View(), input)
      modifies this, player, dragon, fireballs
      ensures Valid() && player == old(player) && dragon == old(dragon)
      ensures forall i :: 0 <= i < |fireballs| ==> fireballs[i] in old(fireballs) || fresh(fireballs[i])
      ensures View() == Tick(old(View()), input)
    {
      HandleEvents(input.dx, input.dy);
      assert View() == Moved(old(View()), input);
      UpdateGame(input.teleport, input.draws);
    }

    /** Game.run: steps on the inputs in turn and stops once the game is over.
        Every position stays on the board throughout. */
    method Run(inputs: seq<Input>)
      requires Valid() && Inv(View()) && AllValid(inputs)
      modifies this, player, dragon, fireballs
      ensures Valid() && Inv(View())
      ensures player == old(player) && dragon == old(dragon)
      ensures forall k :: 0 <= k < |fireballs| ==> fireballs[k] in old(fireballs) || fresh(fireballs[k])
      ensures View() == Session.Run(old(View()), inputs)
    {
      var i := 0;
      while i < |inputs| && !gameOver
        invariant 0 <= i <= |inputs|
        invariant Valid() && Inv(View())
        invariant player == old(player) && dragon == old(dragon)
        invariant forall k :: 0 <= k < |fireballs| ==> fireballs[k] in old(fireballs) || fresh(fireballs[k])
        invariant AllValid(inputs[i..])
        invariant Session.Run(old(View()), inputs) == Session.Run(View(), inputs[i..])
      {
        TickPreservesInv(View(), inputs[i]);
        assert inputs[i..][1..] == inputs[i + 1..];
        Step(inputs[i]);
        i := i + 1;
      }
    }
  }
}
