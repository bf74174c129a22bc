/** Properties of one tick and of runs of ticks: the strike on the dragon,
    how the outcome flags are decided, how many random fireballs appear, and
    the timing of the straight volleys. */
module TickFacts {
  import opened Rules
  import opened Session
  import opened FlightFacts

  /** The player ends the tick where its move put it; reaching the dragon's
      cell costs the dragon exactly one hp and moves it to the drawn (on-board)
      cell, and otherwise the dragon keeps its hp and its cell. */
  lemma StrikeRule(s: State, input: Input)
    requires Inv(s) && !s.gameOver && ValidInput(input)
    ensures TickSupplied(s, input)
    ensures Tick(s, input).player == PlayerMove(s.player, input.dx, input.dy)
    ensures PlayerMove(s.player, input.dx, input.dy) == s.dragon.position ==>
      Tick(s, input).dragon.hp == s.dragon.hp - 1 &&
      Tick(s, input).dragon.position == input.teleport && OnBoard(input.teleport)
    ensures PlayerMove(s.player, input.dx, input.dy) != s.dragon.position ==>
      Tick(s, input).dragon.hp == s.dragon.hp &&
      Tick(s, input).dragon.position == s.dragon.position
  {
  }

  /** The killing blow lands this tick. */
  predicate Slain(s: State, input: Input)
  {
    PlayerMove(s.player, input.dx, input.dy) == s.dragon.position && s.dragon.hp <= 1
  }

  /** A tick ends the game exactly when the dragon is slain or a fireball
      burns the player, and is won exactly when the dragon is slain and no
      fireball burns the player: a hit later in the tick overrides the win. */
  lemma TickOutcome(s: State, input: Input)
    requires Inv(s) && !s.gameOver && ValidInput(input)
    ensures TickSupplied(s, input)
    ensures Tick(s, input).gameOver <==>
      Slain(s, input) || Burned(Armed(Moved(s, input), input.teleport, input.draws))
    ensures Tick(s, input).win <==>
      Slain(s, input) && !Burned(Armed(Moved(s, input), input.teleport, input.draws))
  {
  }

  /** Every tick spawns exactly SpawnCount(hp) random fireballs for the hp the
      dragon has after the strike, at the first cells drawn, and removes none. */
  lemma SpawnPerTick(s: State, input: Input)
    requires Inv(s) && !s.gameOver && ValidInput(input)
    ensures TickSupplied(s, input)
    ensures Tick(s, input).randoms ==
      s.randoms + input.draws[..SpawnCount(Tick(s, input).dragon.hp)]
  {
  }

  /** The killing blow does not stop the rest of the tick: the dragon, now at
      0 hp, still spawns six random fireballs (and no volley), and the game is
      over. */
  lemma KillingBlowStillSpawns(s: State, input: Input)
    requires Inv(s) && !s.gameOver && ValidInput(input)
    requires PlayerMove(s.player, input.dx, input.dy) == s.dragon.position
    requires s.dragon.hp == 1
    ensures TickSupplied(s, input)
    ensures Tick(s, input).gameOver && Tick(s, input).dragon.hp == 0
    ensures |Tick(s, input).randoms| == |s.randoms| + 6
    ensures TickVolley(s, input) == []
  {
  }

  /** A tick shoots a volley exactly when the cooldown it starts with is at
      most 1 and the dragon's hp after the strike is in [5, 8); a volley sets
      the cooldown to 5, otherwise it counts down by one and stops at 0. */
  lemma VolleyTiming(s: State, input: Input)
    requires Inv(s) && !s.gameOver && ValidInput(input)
    ensures TickSupplied(s, input)
    ensures TickVolley(s, input) != [] <==>
      s.dragon.cooldown <= 1 && InVolleyWindow(Tick(s, input).dragon.hp)
    ensures Tick(s, input).dragon.cooldown ==
      if TickVolley(s, input) != [] then VOLLEY_DELAY
      else if s.dragon.cooldown > 0 then s.dragon.cooldown - 1
      else 0
  {
  }

  /** A volley appends its four fireballs, launched from the dragon's cell
      after the strike, to the straight fireballs before they fly. */
  lemma VolleyJoinsFlight(s: State, input: Input)
    requires Inv(s) && !s.gameOver && ValidInput(input)
    ensures TickSupplied(s, input)
    ensures Armed(Moved(s, input), input.teleport, input.draws).fireballs ==
      s.fireballs + TickVolley(s, input)
    ensures TickVolley(s, input) != [] ==>
      |TickVolley(s, input)| == 4 &&
      forall t :: t in TickVolley(s, input) ==> t.position == Tick(s, input).dragon.position
  {
  }

  /** Starting from cooldown c, the ticks before the c-th shoot nothing, and
      the c-th shoots exactly when the dragon's hp is in [5, 8) then: after a
      volley (c = 5) the next one comes exactly five ticks later if the game
      is still on and the hp is still in the window, and never earlier. */
  lemma {:induction false} VolleyCadence(s: State, ins: seq<Input>, input: Input)
    requires Inv(s) && AllValid(ins) && ValidInput(input)
    requires |ins| < s.dragon.cooldown
    requires !Run(s, ins).gameOver
    ensures TickSupplied(Run(s, ins), input)
    ensures Run(s, ins).dragon.cooldown == s.dragon.cooldown - |ins|
    ensures TickVolley(Run(s, ins), input) != [] <==>
      |ins| == s.dragon.cooldown - 1 && InVolleyWindow(Tick(Run(s, ins), input).dragon.hp)
    decreases |ins|
  {
    if ins == [] {
      VolleyTiming(s, input);
    } else {
      assert !s.gameOver;
      VolleyTiming(s, ins[0]);
      TickPreservesInv(s, ins[0]);
      var next := Tick(s, ins[0]);
      assert Run(s, ins) == Run(next, ins[1..]);
      assert next.dragon.cooldown == s.dragon.cooldown - 1;
      assert AllValid(ins[1..]) by {
        forall k | 0 <= k < |ins[1..]| ensures ValidInput(ins[1..][k]) {
          assert ins[1..][k] == ins[k + 1];
        }
      }
      VolleyCadence(next, ins[1..], input);
    }
  }
}
