/** What Game.update_fireballs does to the straight fireballs and to the
    game's outcome, stated against independent descriptions. */
module FlightFacts {
  import opened Rules
  import opened Session

  /** Survivors of a concatenation are the survivors of each part, in order,
      and a single fireball survives exactly when its move succeeds: together
      these make Kept an order-preserving filter of moved fireballs. */
  lemma {:induction false} KeptAppend(a: seq<Shot>, b: seq<Shot>)
    ensures Kept(a + b) == Kept(a) + Kept(b)
    ensures |b| == 1 ==>
      Kept(b) == (if Advance(b[0]).moved then [Advance(b[0]).shot] else [])
    decreases |b|
  {
    if b == [] {
      assert a + b == a;
    } else {
      var front := b[..|b| - 1];
      assert (a + b)[..|a + b| - 1] == a + front;
      assert (a + b)[|a + b| - 1] == b[|b| - 1];
      KeptAppend(a, front);
      if |b| == 1 {
        assert front == [];
      }
    }
  }

  /** A fireball is kept exactly when it is the moved form of some fireball
      whose move succeeded. */
  lemma {:induction false} KeptMember(shots: seq<Shot>, t: Shot)
    ensures t in Kept(shots) <==>
      exists i :: 0 <= i < |shots| && Advance(shots[i]).moved && Advance(shots[i]).shot == t
    decreases |shots|
  {
    if shots != [] {
      var n := |shots| - 1;
      var front := shots[..n];
      KeptMember(front, t);
      if t in Kept(shots) {
        if t in Kept(front) {
          var i :| 0 <= i < |front| && Advance(front[i]).moved && Advance(front[i]).shot == t;
          assert shots[i] == front[i];
        } else {
          assert Advance(shots[n]).moved && Advance(shots[n]).shot == t;
        }
      }
      if exists i :: 0 <= i < |shots| && Advance(shots[i]).moved && Advance(shots[i]).shot == t {
        var i :| 0 <= i < |shots| && Advance(shots[i]).moved && Advance(shots[i]).shot == t;
        if i < n {
          assert front[i] == shots[i];
        }
      }
    }
  }

  /** The straight-hit check of update_fireballs fires exactly when some
      fireball's cell after its attempted move (its old cell, when the move
      failed) is the player's. */
  lemma {:induction false} StraightHitIff(shots: seq<Shot>, p: Cell)
    ensures StraightHit(shots, p) <==>
      exists i :: 0 <= i < |shots| && Advance(shots[i]).shot.position == p
    decreases |shots|
  {
    if shots != [] {
      var n := |shots| - 1;
      var front := shots[..n];
      StraightHitIff(front, p);
      if StraightHit(front, p) {
        var i :| 0 <= i < |front| && Advance(front[i]).shot.position == p;
        assert shots[i] == front[i];
      }
      if exists i :: 0 <= i < |shots| && Advance(shots[i]).shot.position == p {
        var i :| 0 <= i < |shots| && Advance(shots[i]).shot.position == p;
        if i < n {
          assert front[i] == shots[i];
        }
      }
    }
  }

  /** update_fireballs ends the game, and takes a win back, exactly when a
      straight fireball (after its attempted move) or a random fireball is on
      the player's cell; a kept fireball on the player's cell always means a
      loss. Nothing but the straight fireballs and the two flags changes. */
  lemma UpdateFireballsOutcome(s: State)
    ensures UpdateFireballs(s).player == s.player
    ensures UpdateFireballs(s).dragon == s.dragon
    ensures UpdateFireballs(s).randoms == s.randoms
    ensures UpdateFireballs(s).gameOver <==>
      || s.gameOver
      || (exists i :: 0 <= i < |s.fireballs| && Advance(s.fireballs[i]).shot.position == s.player)
      || s.player in s.randoms
    ensures UpdateFireballs(s).win <==>
      && s.win
      && !(exists i :: 0 <= i < |s.fireballs| && Advance(s.fireballs[i]).shot.position == s.player)
      && s.player !in s.randoms
    ensures forall t :: t in UpdateFireballs(s).fireballs && t.position == s.player ==>
      UpdateFireballs(s).gameOver && !UpdateFireballs(s).win
  {
    StraightHitIff(s.fireballs, s.player);
    forall t | t in UpdateFireballs(s).fireballs && t.position == s.player
      ensures UpdateFireballs(s).gameOver && !UpdateFireballs(s).win
    {
      KeptMember(s.fireballs, t);
      var i :| 0 <= i < |s.fireballs| && Advance(s.fireballs[i]).moved && Advance(s.fireballs[i]).shot == t;
      assert Advance(s.fireballs[i]).shot.position == s.player;
    }
  }
}
