# Snake game: movement core

A model of the game logic in the movement snapshot of a Snake game built on
the ggez engine (`src/main.rs`). The snake is a single cell with `i32`
coordinates `pos_x`, `pos_y` on an unbounded grid, plus a heading. The state
machine has four parts:

- `Snake::new` puts the snake at `(0, 0)` heading `Right`.
- `Snake::update` is one tick. It moves the snake one cell along its heading
  and always returns `Ok(())`. Screen coordinates are used, so `Up` decreases
  `y`.
- `GameState::key_down_event` sets the heading from an arrow key and ignores
  every other key.
- `GameState::update` ticks the snake once for each time the engine's
  fixed-timestep timer fires. It stops at the first error a tick reports.

The project has three modules:

- `Int32` (`int32.dfy`) defines the `i32` newtype and two's-complement
  wrap-around.
- `Snakes` (`snakes.dfy`) holds the snake, its ticks, and `Run`, which
  applies `k` ticks.
- `Game` (`game.dfy`) holds the key handler and the tick loop.

The game state holds nothing but the snake, so it is modelled as the snake
itself.

Rust `i32` arithmetic behaves differently in each build, so one tick is
modelled twice:

- `Snakes.Step` is the debug build. An overflowing `+= 1` / `-= 1` panics
  there, so its precondition `CanStep` excludes overflow.
- `Snakes.StepWrapping` is the release build, where the coordinate wraps. It
  is total.

`StepWrappingAgrees` proves that the two agree wherever no coordinate
overflows.

Movement is specified against the reference function `Snakes.Ahead`, the
exact cell `n` units along the heading. The key handler is specified against
its inverse, `Game.KeyFor`, the arrow key for each heading.

Later snapshots of this game add a wrap-around grid, a multi-cell body, food
and self-collision. This snapshot has none of them: the position is unbounded
and the snake is one cell, and the model covers only this snapshot.

## Model

| member | source | states |
|---|---|---|
| Int32.Wrap | src/main.rs:57-58 | the release-build result of an `i32` operation is congruent to the exact result modulo 2^32, and equals it whenever it is in range |
| Int32.WrapAtEdges | src/main.rs:57-58 | `i32::MAX + 1` wraps to `i32::MIN`, and `i32::MIN - 1` wraps to `i32::MAX` |
| Snakes.Init | src/main.rs:63-69 | a new snake is at position (0, 0) heading Right |
| Snakes.Step | src/main.rs:83-91 | one tick moves the snake to the cell one unit along its heading: Left gives x-1, Right x+1, Up y-1, Down y+1; exactly one coordinate changes, by exactly one; the heading is unchanged |
| Snakes.Update | src/main.rs:83-91 | a tick always returns `Ok`, carrying the moved snake with its heading unchanged |
| Snakes.StepWrapping | src/main.rs:83-91 | in a release build a tick keeps the heading, leaves the off-axis coordinate unchanged, and moves the on-axis coordinate to a value congruent to the exact moved value modulo 2^32 |
| Snakes.StepWrappingAgrees | src/main.rs:84-89 | when no coordinate overflows, the release-build tick equals the debug-build tick |
| Snakes.StepWrappingAtEdge | src/main.rs:86 | a snake at x = `i32::MAX` heading Right cannot tick in a debug build, and in a release build it wraps to x = `i32::MIN` with y unchanged |
| Snakes.StepOppositeReturns | src/main.rs:84-89 | a tick followed by a tick in the opposite heading returns the snake to its starting cell, and the second tick cannot overflow |
| Snakes.StepWrappingOppositeReturns | src/main.rs:84-89 | in a release build the same round trip holds for every snake, even when the first tick wraps around |
| Snakes.Run | src/main.rs:33-35 | `k` ticks in a row leave the snake exactly `k` cells further along its heading, with the heading unchanged |
| Snakes.RunAdditive | src/main.rs:33-35 | `a` ticks followed by `b` ticks equal `a + b` ticks, and neither part overflows when the whole does not |
| Snakes.RunFromInit | src/main.rs:63-69 | from the start state, `k` ticks (for `k` up to `i32::MAX`) put the snake at (k, 0) heading Right |
| Game.KeyFor | src/main.rs:46-50 | every heading is selected by an arrow key, never by a non-arrow key |
| Game.NewGame | src/main.rs:13-17 | a new game's snake is at (0, 0) heading Right |
| Game.OnKey | src/main.rs:46-52 | a key never moves the snake; an arrow key sets the heading whose key it is; any other key leaves the whole state unchanged |
| Game.OnKeySelects | src/main.rs:46-50 | the key for heading d sets exactly heading d and nothing else; an arrow key yields heading d if and only if it is d's key |
| Game.OnKeyLastWins | src/main.rs:46-52 | of two key presses the later arrow key decides the heading, and pressing a key twice equals pressing it once |
| Game.KeyRoundTrip | src/main.rs:46-50 | pressing an arrow key and ticking, then pressing the opposite arrow key and ticking, returns the snake to its cell |
| Game.Update | src/main.rs:30-37 | running the tick loop for `ticks` timer firings returns `Ok` with the snake `ticks` cells further along its heading; this equals `Snakes.Run` |

## Left out

- Rendering (`GameState::draw`, `Snake::draw`, src/main.rs:21-28 and 71-81) is left out. It consists of graphics calls into the engine, including the `pos * 25` pixel scaling, which can itself overflow `i32`.
- Window and context creation and the engine's event loop (`main`, src/main.rs:101-115) are left out as engine plumbing.
- The fixed-timestep timer `timer::check_update_time` reads the engine's clock. The number of times it fires in one call is the `ticks` parameter of `Game.Update`.
- `Game.Update` models the debug build only. A release build's tick loop is `ticks` applications of `Snakes.StepWrapping`, whose single-tick properties are proved.
- `GameResult` errors are opaque engine values, modelled as the single value `EngineError`. The snake's tick never produces one.
- The engine `Context` is left out. `Snake::update` and `GameState::key_down_event` never read their `_ctx` parameter. `GameState::update` passes its `ctx` only to the timer (src/main.rs:33), which is replaced by `ticks`, and to `Snake::update` (src/main.rs:34), which ignores it.
- The `KeyMods` and repeat-flag arguments of `GameState::key_down_event` are left out. The handler never reads them.
