# Slay the Dragon: the grid game engine in Dafny

`Slaythedragon1.1.py` is a turn-based game on a 25 × 25 board. The player
moves one cell per frame. Whenever the player is on the dragon's cell after
the move (also when the player stood still and the dragon had teleported onto
it), the dragon loses one hit point and teleports to a random cell. The dragon
fights back in two ways, chosen by its hit points:

- between 5 and 7 hp, it shoots volleys of four straight fireballs (up, down,
  left, right), which it can repeat every five ticks;
- below 5 hp, it spawns `6 - hp` fireballs at random cells every tick. These
  stay on the board for the rest of the game.

A straight fireball that would leave the board is dropped. The game ends as a
loss when any fireball is on the player's cell. It ends as a win when the
dragon's hp reaches 0, unless a fireball burns the player in the same tick.

The model has two layers.

- **Values** (`rules.dfy`, `session.dfy`). The board, the per-entity rules
  and one tick of the game are functions over datatypes:
  - `Rules.PlayerMove`, `Rules.Advance`, `Rules.Shoot` and `Rules.Spawn`
    cover the per-entity rules.
  - `Session.State` holds the game's value, and `Session.Tick` performs one
    tick.
  - `Session.Run` runs the game over a sequence of inputs until it is over.

  Properties of these functions are lemmas in `flight_facts.dfy` and
  `tick_facts.dfy`.
- **Objects** (`entities.dfy`, `game.dfy`). `Player`, `Dragon`, `Fireball`
  and `Game` are classes whose methods update their fields in place, as the
  source does. Each method's `ensures` give the object's new value exactly,
  mostly as a function of module Rules or Session; most `Game` methods state
  `View() == Session.F(old(View()))`.

Randomness is an input. Each tick receives a `Session.Input`, which holds:

- the key delta `(dx, dy)`;
- the cell the dragon teleports to if it is struck;
- the cells at which that tick's random fireballs appear.

The drawn cells are required to lie on the board, which is the range of
`random.randint(0, BOARD_SIZE - 1)`. A `FireballRandom` never changes after it
is created, so it is modelled by its cell.

## Model

| member | source | states |
|---|---|---|
| Rules.PlayerMove | Slaythedragon1.1.py:33-38 | The whole step is taken when its destination is on the board, and otherwise the position is exactly unchanged: no per-axis clamp, no wrap. An on-board player stays on the board. |
| Rules.Advance | Slaythedragon1.1.py:92-106 | The move succeeds if and only if the neighbouring cell in the fireball's direction is on the board. It then lands on that adjacent cell. Otherwise the fireball is unchanged. The direction never changes. |
| Rules.CooldownTick | Slaythedragon1.1.py:74-76 | A positive cooldown drops by exactly 1. Zero is left as it is. A non-negative cooldown never becomes negative. |
| Rules.Shoot | Slaythedragon1.1.py:60-66 | A volley is fired if and only if 5 <= hp < 8 and the cooldown is 0. It is 4 shots at the dragon's cell, in the directions up, down, left, right in that order, and it sets the cooldown to 5. Otherwise there is no shot and the dragon is unchanged. Position and hp are never changed. |
| Rules.Spawn | Slaythedragon1.1.py:68-72 | Below 5 hp, exactly `6 - hp` fireballs appear, at the first cells drawn. Otherwise none appear. Every spawned fireball is on the board. |
| Session.Init | Slaythedragon1.1.py:124-137 | The initial game: player at (0, 0), dragon with 10 hp and cooldown 0 at the drawn cell, no fireballs, not over, not won. It satisfies the game invariant. |
| Session.Kept | Slaythedragon1.1.py:157-168 | The survivors of update_fireballs are never more than the fireballs that flew. |
| Session.KeptOnBoard | Slaythedragon1.1.py:157-168 | Every surviving straight fireball is on the board. |
| Session.TickPreservesInv | Slaythedragon1.1.py:176-189 | One tick of a running game keeps all of the following. Player, dragon, every straight fireball and every random fireball are on the board. The cooldown stays in [0, 5]. A running game has hp >= 1, and a won game has hp <= 0. The random fireballs are only appended to. |
| Session.Run | Slaythedragon1.1.py:209-215 | Ticking until the game is over keeps the game invariant (everything on the board) from any valid state. The list of random fireballs only grows. |
| FlightFacts.KeptAppend | Slaythedragon1.1.py:158-161 | The survivors of a concatenation are the survivors of each part, in order. A single fireball survives exactly when its move succeeds. So update_fireballs is an order-preserving filter. |
| FlightFacts.KeptMember | Slaythedragon1.1.py:158-161 | A fireball is kept if and only if it is the moved form of some fireball whose move succeeded. |
| FlightFacts.StraightHitIff | Slaythedragon1.1.py:159-166 | The straight-fireball loop reports a hit if and only if some fireball, after its attempted move, is on the player's cell. After a failed move, that is its old cell. |
| FlightFacts.UpdateFireballsOutcome | Slaythedragon1.1.py:157-174 | update_fireballs sets game_over if and only if the game was already over, a straight fireball after its move is on the player's cell, or a random fireball is. It keeps win if and only if win was set and no fireball, straight or random, is on the player's cell. Player, dragon and random fireballs are unchanged. |
| TickFacts.StrikeRule | Slaythedragon1.1.py:176-182 | A player on the dragon's cell after the move (whether or not it moved) costs it exactly one hp and moves it to the drawn on-board cell. Otherwise its hp and cell are unchanged. |
| TickFacts.TickOutcome | Slaythedragon1.1.py:176-189 | A tick ends the game if and only if the dragon is slain or a fireball burns the player. It is won if and only if the dragon is slain and no fireball burns the player, so a later hit overrides the win. |
| TickFacts.SpawnPerTick | Slaythedragon1.1.py:184-187 | Each tick appends exactly SpawnCount(hp after the strike) random fireballs, at the first cells drawn, and removes none. |
| TickFacts.KillingBlowStillSpawns | Slaythedragon1.1.py:176-189 | The killing blow at hp 1 ends the game with hp 0. The same tick still spawns 6 random fireballs and shoots no volley. |
| TickFacts.VolleyTiming | Slaythedragon1.1.py:184-186 | A tick shoots if and only if its starting cooldown is at most 1 and the hp after the strike is in [5, 8). A volley sets the cooldown to 5. Otherwise the cooldown counts down and stops at 0. |
| TickFacts.VolleyJoinsFlight | Slaythedragon1.1.py:186 | A tick's volley is appended after the existing straight fireballs. It has 4 shots, all at the dragon's cell after the strike. |
| TickFacts.VolleyCadence | Slaythedragon1.1.py:184-186 | From cooldown c, the next c - 1 ticks of a running game shoot nothing and count the cooldown down one per tick. The c-th tick shoots exactly when the hp is in [5, 8). So volleys come exactly five ticks apart. |
| Entities.Player.constructor | Slaythedragon1.1.py:30-31 | The player starts at the given cell. |
| Entities.Player.Move | Slaythedragon1.1.py:33-38 | The new position is Rules.PlayerMove of the old one. |
| Entities.Dragon.constructor | Slaythedragon1.1.py:46-49 | A new dragon has the given cell and hp, and cooldown 0. |
| Entities.Dragon.TakeDamage | Slaythedragon1.1.py:51-53 | hp drops by exactly 1. Nothing else changes. |
| Entities.Dragon.RandomizePosition | Slaythedragon1.1.py:55-58 | The dragon moves to the drawn on-board cell. Nothing else changes. |
| Entities.Dragon.UpdateCooldown | Slaythedragon1.1.py:74-76 | The cooldown becomes Rules.CooldownTick of the old one. Nothing else changes. |
| Entities.Dragon.ShootFireballs | Slaythedragon1.1.py:60-66 | It returns new, pairwise distinct fireball objects whose values are Rules.Shoot's volley. The dragon becomes Rules.Shoot's dragon. |
| Entities.Dragon.SpawnFireballs | Slaythedragon1.1.py:68-72 | It returns Rules.Spawn's cells and changes nothing. |
| Entities.Fireball.constructor | Slaythedragon1.1.py:88-90 | A new fireball has the given cell and direction. |
| Entities.Fireball.Move | Slaythedragon1.1.py:92-106 | The returned flag and the new value are Rules.Advance of the old value. |
| DragonGame.FlyAll | Slaythedragon1.1.py:158-168 | The loop over the straight fireball objects moves each one. It returns distinct objects taken from the list whose values, in order, are Session.Kept of the old values. It reports a hit exactly as Session.StraightHit. |
| DragonGame.Game.constructor | Slaythedragon1.1.py:124-137 | The player and the dragon are new objects, and the new game's value is Session.Init of the dragon's drawn cell. |
| DragonGame.Game.UpdateFireballs | Slaythedragon1.1.py:157-174 | The game's new value is Session.UpdateFireballs of the old one. Only fireball objects already in the list remain. |
| DragonGame.Game.FlyStraight | Slaythedragon1.1.py:158-168 | The straight fireballs become the moved survivors. game_over and win record a straight hit. |
| DragonGame.Game.CheckRandomHits | Slaythedragon1.1.py:170-174 | game_over is set, and win cleared, exactly when a random fireball is on the player's cell. |
| DragonGame.Game.UpdateGame | Slaythedragon1.1.py:176-189 | The game's new value is Session.UpdateGame of the old one. Every fireball object is an old one or a new one. |
| DragonGame.Game.StrikeDragon | Slaythedragon1.1.py:177-182 | The game's new value is Session.Strike of the old one. |
| DragonGame.Game.ArmDragon | Slaythedragon1.1.py:184-187 | The game's new value is Session.Arm of the old one: the cooldown ticks, the volley is appended to the straight fireballs and the spawn to the random fireballs. |
| DragonGame.Game.HandleEvents | Slaythedragon1.1.py:154-155 | The player's new position is Rules.PlayerMove of the key delta. |
| DragonGame.Game.Step | Slaythedragon1.1.py:212-214 | One frame of a running game changes the game's value to Session.Tick of the old one. |
| DragonGame.Game.Run | Slaythedragon1.1.py:209-214 | The frames until the game is over change the game's value to Session.Run of the old one, and keep the game invariant. The player and dragon objects stay the same, and every fireball object is an old one or a new one. |

## Left out

- Rendering and windowing: `Board.draw_grid`, every `draw` method, `draw_game`, `display_message`, the window, the font, the clock, `pygame.quit` and `sys.exit`. They are presentation I/O and change no game state.
- `handle_events`' event polling. The key delta `(dx, dy)` of a frame is an input. Only the movement guarded by `if dx or dy` is modelled. Any integer delta is accepted, a superset of the deltas in {-1, 0, 1} that the keys produce. Quitting the window is not modelled.
- The `random` module. The teleport cell and the random fireballs' cells are inputs, required to lie in randint's range.
- `print` calls. They are output only.
- Session.Run: it models the frames while the game is running. After `game_over` the source shows a message and exits, which is I/O.
- Fireball directions are a datatype of four values. The source's strings could in principle hold something else, and then the fireball would stand still. The game never creates such a fireball.
- dragon_slaying.py, data_visualize.py and main0.5.py are not part of this model. They are a floating-point turtle game built on an unseen library, plotting, and window setup.
