# Snake game core, modelled in Dafny

This project models the game logic of a Java Swing Snake game:
- the snake (`Snake.java`): its body of pixel points, head first; its heading; and a target length it grows towards;
- the food (`Food.java`): a grid cell drawn from `java.util.Random` and redrawn up to 100 times until it misses the snake;
- the panel (`GamePanel.java`): it owns both, runs one update per timer tick while playing, ends the game on a wall or self collision, and restarts on SPACE.

Each Java class is a Dafny class with the fields and methods of the game logic. The differences:
- `Snake.bodyParts` is called `body`, and the heading characters `'U'`, `'D'`, `'L'`, `'R'` are the datatype `Direction`.
- `Food.getX` and `Food.getY` are one function, `Food.Position`.
- `GamePanel`'s constructor also does the work of `initializeGame` and `startGame`.
- `GameKeyAdapter.keyPressed` is the `GamePanel` method `KeyPressed`. The inner class only reads and writes the panel's fields.
- Three helper methods were added:
  - `Food.OnBody` is the inner `for` loop of `generateNewFood`.
  - `GamePanel.EatFood` is the food step of `updateGame`.
  - `GamePanel.CheckCollisions` is the collision step of `updateGame`.

How the classes are specified:
- `SnakeModel.Snake`, `FoodModel.Food`, `FoodModel.Random` and `Game.GamePanel` update their fields in place, with `modifies` frames.
- Each state-changing method is proved against a pure function of the old state:
  - `Advance` for a move;
  - `Turned` for the reversal guard;
  - `Place` for the food placement loop;
  - `Update`, `Tick` and `Key` for the panel. The panel's state is read through `GamePanel.State()` as a `Session` value.
- The properties of the game are lemmas about those functions: invariants, ordering within a tick, placement guarantees, and example runs.

Modules, one per file:
- `Geometry` (`geometry.dfy`): points, headings, the one-unit move, and panel and grid bounds.
- `SnakeModel` (`snake.dfy`): the snake.
- `FoodModel` (`food.dfy`): the random generator and the food.
- `Game` (`game.dfy`): the session and the panel.

Randomness is a parameter. A `Random` holds an arbitrary stream `oracle: nat -> nat`, and its `i`-th `nextInt(n)` returns `oracle(i) % n`. Every statement proved for an arbitrary oracle therefore holds for every sequence of in-range draws. How `java.util.Random` computes its values is not modelled. A new `Food` (at start and at restart) gets a fresh stream, passed in by the caller. Its first cell is drawn without looking at the snake, so the initial food, and the food after a restart, may lie on the snake (`InitialFoodMayOverlap`).

The model follows the Java code:
- Positions are pixels, and a move shifts the head by `unitSize`.
- After 100 occupied candidates, `generateNewFood` takes a 101st, unchecked draw (`Food.java:60-63`).
- Only `PLAYING` and `GAME_OVER` are ever entered. `MENU` and `PAUSED` (`GameState.java:5`, `GameState.java:7`) are not modelled.

## Model

| member | source | states |
|---|---|---|
| Geometry.Shift | Snake.java:38-51 | A move changes the head exactly when the unit size is not 0 |
| Geometry.OppositeIsInvolution | Snake.java:178-181 | The reversal pairs U/D and L/R: no heading is its own opposite, and the opposite of the opposite is the heading itself |
| Geometry.ShiftMovesOneUnit | Snake.java:38-51 | A move changes only the coordinate on the heading's axis, by exactly `unitSize` pixels |
| Geometry.ShiftOppositeUndoes | Snake.java:38-51 | A move in the opposite heading returns the head to where it was |
| Geometry.CellEdgeOnGrid | Food.java:35-36 | `k * unitSize` for a cell index `k < extent / unitSize` is a multiple of the unit, inside the whole cells of the panel |
| Geometry.OnGridInPanel | Food.java:34-37 | A grid cell's corner lies inside the panel's pixel bounds |
| SnakeModel.InitialBody | Snake.java:26-28 | A fresh body has 3 segments ending at the origin, and each segment is one unit right of the next: a straight snake heading Right |
| SnakeModel.HitsSelf | Snake.java:206-214 | A self collision is exactly the head occurring again among the other segments |
| SnakeModel.Turned | Snake.java:176-185 | The new heading is the current or the requested one, and never the opposite of the current one |
| SnakeModel.Advance | Snake.java:34-59 | One move never shortens the body and adds at most one segment |
| SnakeModel.AdvanceShape | Snake.java:34-59 | After a move the head is the old head shifted one unit, the rest is the old body with the tail dropped exactly when the target is reached, and the length is `min(target, old length + 1)` |
| SnakeModel.OneSegmentPerMove | Snake.java:219-221 | However many `grow` calls are pending, one move adds at most one segment; with none pending at full length the length is unchanged |
| SnakeModel.InitialBodySelfCollision | Snake.java:19-29 | A fresh three-segment body collides with itself exactly when the unit size is 0 |
| SnakeModel.ReversalHitsNeck | Snake.java:176-185 | Moving opposite to the last move puts the head on the neck, which is a self collision. This is the reversal the guard exists to prevent |
| SnakeModel.TurnedRejectsOnlyReversal | Snake.java:176-185 | The guard never adopts the opposite heading, and it adopts the requested heading exactly when that is not the opposite |
| SnakeModel.TwoTurnsReverse | Snake.java:176-185 | The guard compares with the stored heading, not the last move: two quarter turns between ticks reverse the snake |
| SnakeModel.Snake.constructor | Snake.java:19-29 | The snake heads Right with target 3 and body `(2u,0), (u,0), (0,0)` |
| SnakeModel.Snake.Update | Snake.java:34-59 | The new body is `Advance` of the old body along the heading, up to the target length; heading and target are unchanged; length stays between 3 and the target |
| SnakeModel.Snake.SetDirection | Snake.java:176-185 | The heading becomes `Turned(old heading, requested)`; body and target are unchanged |
| SnakeModel.Snake.CheckFoodCollision | Snake.java:190-193 | True exactly when the head equals the food point |
| SnakeModel.Snake.CheckWallCollision | Snake.java:198-201 | True exactly when the head is outside `[0, width) x [0, height)` |
| SnakeModel.Snake.CheckSelfCollision | Snake.java:206-214 | True exactly when some segment other than the head equals the head |
| SnakeModel.Snake.Grow | Snake.java:219-221 | The target grows by one; the body and heading are unchanged |
| SnakeModel.Snake.BodyParts | Snake.java:226-228 | The body as a value, between 3 and the target in length |
| FoodModel.Draw | Food.java:35-36 | A draw of `nextInt(bound)` lies in `[0, bound)` |
| FoodModel.Random.constructor | Food.java:25 | A new generator has drawn nothing from its stream |
| FoodModel.Random.NextInt | Food.java:35-36 | Returns the next value of the stream reduced into `[0, bound)`, and consumes one draw |
| FoodModel.RandomCell | Food.java:34-37 | The cell of two draws, column then row, lies inside the panel |
| FoodModel.RandomCellOnGrid | Food.java:34-37 | A cell drawn from two values of the stream is a grid cell of the panel |
| FoodModel.CandidateNext | Food.java:46-58 | Each attempt uses the next two draws: the candidates after the first are those of a placement starting two draws later |
| FoodModel.PlaceFrom | Food.java:46-63 | The placement loop from a given attempt on never exceeds 100 attempts |
| FoodModel.Place | Food.java:42-64 | A checked placement misses the body, and an unchecked one comes only after all 100 attempts were used |
| FoodModel.PlaceFromStep | Food.java:46-58 | One checked attempt: a free cell ends the loop with that cell; an occupied cell moves on to the next attempt |
| FoodModel.PlaceFromOnGrid | Food.java:42-64 | Wherever the food is placed, it is a grid cell inside the panel |
| FoodModel.PlaceFromValidIsFree | Food.java:46-58 | A placement that ends the loop on a free cell misses the body. That cell is the candidate of the last attempt, and two draws were consumed per attempt |
| FoodModel.PlaceFromValidIsFirst | Food.java:46-58 | A checked placement is the first free candidate: every earlier candidate was on the body |
| FoodModel.PlaceFromFallback | Food.java:60-63 | When all 100 candidates are on the body, the food is the 101st draw, unchecked, and 202 draws were consumed |
| FoodModel.PlaceFromValidIff | Food.java:42-64 | The placement is checked free exactly when one of the 100 candidates misses the body |
| FoodModel.FallbackMayOverlap | Food.java:60-63 | The fallback can put the food on the body: a stream of zeros with a body on the origin places it on the origin |
| FoodModel.Food.constructor | Food.java:21-29 | The new food is the cell of the first two draws of a fresh generator, on the grid |
| FoodModel.Food.GenerateRandomPosition | Food.java:34-37 | The food moves to the cell of the next two draws, a grid cell; two draws are consumed |
| FoodModel.Food.GenerateNewFood | Food.java:42-64 | The food lands where `Place` puts it for the given body and the draws taken so far, and the generator has consumed exactly the draws `Place` accounts for |
| FoodModel.Food.OnBody | Food.java:51-56 | True exactly when the food's point is one of the body's points |
| FoodModel.Food.Position | Food.java:125-134 | The food's position (`getX`, `getY`) is a grid cell inside the panel |
| Game.KeyDirection | GamePanel.java:277-294 | SPACE never asks for a heading |
| Game.Initial | GamePanel.java:70-91 | A new session: 3 segments at target 3, heading Right, score 0, running and playing |
| Game.Key | GamePanel.java:272-301 | A key either restarts the session or leaves body, food, score and state as they were |
| Game.KeyDirectionKeys | GamePanel.java:277-294 | LEFT/A ask for Left, RIGHT/D for Right, UP/W for Up, DOWN/S for Down; every other key asks for no heading |
| Game.PanelHasCells | GamePanel.java:14-16 | The 800 x 600 panel of 20-pixel units holds 40 x 30 whole cells |
| Game.InitialInv | GamePanel.java:70-91 | A new session satisfies the invariant: 3 segments, score 0, running while playing, food on the grid. The fresh snake is inside the panel and does not collide with itself |
| Game.Move | GamePanel.java:114 | The move step never shortens the body |
| Game.Eat | GamePanel.java:120-132 | The food step leaves the body as moved |
| Game.EndOnCollision | GamePanel.java:135-139 | The collision step leaves the body as moved |
| Game.Update | GamePanel.java:107-140 | An update never shortens the body |
| Game.Tick | GamePanel.java:97-102 | A tick never shortens the body |
| Game.Run | GamePanel.java:97-102 | Any number of ticks never shortens the body |
| Game.MoveInv | GamePanel.java:114 | Moving keeps the invariant |
| Game.EatInv | GamePanel.java:120-132 | Eating keeps the invariant: score and target rise together, and the redrawn food is on the grid |
| Game.EndOnCollisionInv | GamePanel.java:135-139 | Ending keeps the invariant. The game is over afterwards exactly when it was already over, or the head is outside the panel, or the head is on the body |
| Game.UpdateInv | GamePanel.java:107-140 | An update keeps the invariant |
| Game.InitialFoodMayOverlap | Food.java:21-29 | The first food is drawn without looking at the snake: a stream of zeros puts it on the fresh snake's tail |
| Game.UpdateOrder | GamePanel.java:107-140 | Order within an update: the game ends exactly when the moved head is out of the panel or on the moved body. A point is scored exactly when the moved head is on the old food. Without a point, food and draws are unchanged. A checked placement avoids the moved body |
| Game.TickInv | GamePanel.java:97-102 | A tick keeps the invariant and raises the score by 0 or 1 |
| Game.GameOverIsFrozen | GamePanel.java:97-102 | Once the game is over, any number of ticks changes nothing |
| Game.RunInv | GamePanel.java:97-102 | Over any number of ticks the invariant holds, the score never decreases, and a game that is over stays over |
| Game.KeyInv | GamePanel.java:272-301 | A key keeps the invariant. SPACE after game over restarts; other keys after game over do nothing. While playing only the heading can change, and a non-movement key changes nothing |
| Game.FirstTick | GamePanel.java:107-140 | With the food elsewhere, the first tick moves the fresh snake one cell right at length 3, with no collision and no point |
| Game.EatThenGrow | GamePanel.java:107-140 | With the food just ahead, the first tick scores 1 at length 3 and target 4. The second tick grows the snake to 4 segments, head at (80, 0), still playing |
| Game.GamePanel.constructor | GamePanel.java:42-91 | Builds and starts the game: the panel's state is `Initial(oracle)`, and it satisfies the invariant |
| Game.GamePanel.ActionPerformed | GamePanel.java:97-102 | A timer tick changes the panel's state as `Tick` does: one update while running and playing, nothing otherwise |
| Game.GamePanel.UpdateGame | GamePanel.java:107-140 | The panel's state becomes `Update` of the old state with the food's stream, and the invariant is kept |
| Game.GamePanel.EatFood | GamePanel.java:120-132 | The food step of `updateGame` changes the state as `Eat` does |
| Game.GamePanel.CheckCollisions | GamePanel.java:135-139 | The collision step of `updateGame` changes the state as `EndOnCollision` does |
| Game.GamePanel.RestartGame | GamePanel.java:253-265 | A new snake, new food from a fresh stream, score 0, running and playing: the state is `Initial(oracle)` |
| Game.GamePanel.KeyPressed | GamePanel.java:272-301 | A key press changes the state as `Key` does. Only SPACE after game over replaces the snake and the food |

## Left out

- Painting and animation are not modelled: `draw`, `paintComponent`, the gradients and fonts, `gameTime`, `deltaTime` and `lastUpdateTime`. The particle system and the sound manager are left out too. None of them affects game state; their calls in `updateGame` and `restartGame` are no-ops in the model.
- The Swing `Timer` and `DELAY` are not modelled. A timer event is a call to `ActionPerformed`, and `timer.start()` does nothing. `initializePanel` and the window (`SnakeGame.java`) are not part of this model.
- Threads are not modelled: key events and timer events are separate method calls, one after another.
- `GAME_UNITS` is declared but never read, so it is left out.
- The values `java.util.Random` produces are not modelled; they are an arbitrary stream passed in.
- Java's 32-bit `int` is modelled as an unbounded integer. Coordinates stay within a few thousand pixels and the score within the number of ticks, so the model does not capture overflow.
- SnakeModel.Snake.BodyParts: returns the body as a value. The model does not capture that the source hands out the live list, which `Food` could alias.
- FoodModel.Food.constructor: requires `unitSize > 0` and at least one whole cell each way. For a zero or negative bound `nextInt` throws, and the model does not carry that exception. A negative unit with negative panel sizes, which Java would accept, is excluded.
- FoodModel.Food.GenerateRandomPosition: has the same requirement on the panel, for the same reason.
- FoodModel.Food.OnBody: models the inner `for` loop of `generateNewFood` as its own method. The loop and its early exit are otherwise unchanged.
- Game.GamePanel.UpdateGame: its food and collision steps are the helper methods `EatFood` and `CheckCollisions`, called in the source's order.
- `MENU` and `PAUSED` are never entered by the game, so `GameState` has only `Playing` and `GameOver`.
