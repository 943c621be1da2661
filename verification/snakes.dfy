/**
  The snake of src/main.rs: a single cell on an unbounded grid of `i32`
  coordinates, with a heading. `x` grows to the right and `y` grows
  downwards (screen coordinates), so `Up` decreases `y`.

  One tick (`Snake::update`) is modelled twice: `Step` for a debug build,
  where an overflowing coordinate panics and is therefore excluded by the
  precondition, and `StepWrapping` for a release build, where it wraps.
 */
module Snakes {
  import opened Int32

  datatype Direction = Left | Right | Up | Down

  datatype Snake = Snake(x: i32, y: i32, dir: Direction)

  /** The engine's `GameResult`: engine errors are opaque values. */
  datatype EngineError = EngineError
  datatype GameResult<T> = Ok(value: T) | Err(error: EngineError)

  /** The snake's cell as a pair of mathematical integers. */
  function Pos(s: Snake): (int, int) {
    (s.x as int, s.y as int)
  }

  /** The heading pointing the other way. */
  function Opposite(d: Direction): (r: Direction)
    ensures r != d
  {
    match d
    case Left => Right
    case Right => Left
    case Up => Down
    case Down => Up
  }

  /**
    Reference definition of movement: the cell `n` units from the snake's
    cell along its heading, computed exactly (no overflow).
   */
  function Ahead(s: Snake, n: nat): (int, int) {
    match s.dir
    case Left => (s.x as int - n, s.y as int)
    case Right => (s.x as int + n, s.y as int)
    case Up => (s.x as int, s.y as int - n)
    case Down => (s.x as int, s.y as int + n)
  }

  /** Moving `n` units along the heading keeps both coordinates inside `i32`. */
  predicate CanRun(s: Snake, n: nat) {
    InRange(Ahead(s, n).0) && InRange(Ahead(s, n).1)
  }

  /** One tick does not overflow: a debug build does not panic. */
  predicate CanStep(s: Snake) {
    CanRun(s, 1)
  }

  /** `Snake::new`: the snake starts at the origin heading right. */
  function Init(): (r: Snake)
    ensures Pos(r) == (0, 0)
    ensures r.dir == Right
  {
    Snake(0, 0, Right)
  }

  /**
    One tick of `Snake::update` in a debug build: the snake moves to the
    neighbouring cell along its heading. Exactly one coordinate changes, by
    exactly one, and the heading is kept.
   */
  function Step(s: Snake): (r: Snake)
    requires CanStep(s)
    ensures Pos(r) == Ahead(s, 1)
    ensures r.dir == s.dir
    ensures (r.x == s.x) != (r.y == s.y)
    ensures (r.x as int - s.x as int) * (r.x as int - s.x as int)
          + (r.y as int - s.y as int) * (r.y as int - s.y as int) == 1
  {
    match s.dir
    case Left => s.(x := s.x - 1)
    case Right => s.(x := s.x + 1)
    case Up => s.(y := s.y - 1)
    case Down => s.(y := s.y + 1)
  }

  /** `Snake::update` as the engine sees it: the tick always reports success. */
  function Update(s: Snake): (r: GameResult<Snake>)
    requires CanStep(s)
    ensures r.Ok?
    ensures Pos(r.value) == Ahead(s, 1) && r.value.dir == s.dir
  {
    Ok(Step(s))
  }

  /**
    One tick of `Snake::update` in a release build: the moved coordinate
    wraps around at the `i32` bounds. Total on every snake.
   */
  function StepWrapping(s: Snake): (r: Snake)
    ensures r.dir == s.dir
    ensures (Pos(r).0 - Ahead(s, 1).0) % MODULUS == 0
    ensures (Pos(r).1 - Ahead(s, 1).1) % MODULUS == 0
    ensures s.dir in {Left, Right} ==> r.y == s.y
    ensures s.dir in {Up, Down} ==> r.x == s.x
  {
    match s.dir
    case Left => s.(x := Wrap(s.x as int - 1))
    case Right => s.(x := Wrap(s.x as int + 1))
    case Up => s.(y := Wrap(s.y as int - 1))
    case Down => s.(y := Wrap(s.y as int + 1))
  }

  /** Where no coordinate overflows, the two builds agree. */
  lemma StepWrappingAgrees(s: Snake)
    requires CanStep(s)
    ensures StepWrapping(s) == Step(s)
  {
  }

  /** At the right-hand edge of the `i32` range a release build wraps to the left-hand edge. */
  lemma StepWrappingAtEdge(s: Snake)
    requires s.dir == Right && s.x as int == MAX
    ensures !CanStep(s)
    ensures Pos(StepWrapping(s)) == (MIN, s.y as int)
  {
    WrapAtEdges();
  }

  /**
    Turning round and stepping back undoes a step: Left then Right, Right
    then Left, Up then Down, Down then Up all return to the starting cell.
   */
  lemma StepOppositeReturns(s: Snake)
    requires CanStep(s)
    ensures CanStep(Step(s).(dir := Opposite(s.dir)))
    ensures Step(Step(s).(dir := Opposite(s.dir))) == s.(dir := Opposite(s.dir))
  {
  }

  /**
    In a release build the same round trip holds for every snake, including
    one whose first step wraps around the edge of the range.
   */
  lemma StepWrappingOppositeReturns(s: Snake)
    ensures StepWrapping(StepWrapping(s).(dir := Opposite(s.dir))) == s.(dir := Opposite(s.dir))
  {
    var t := StepWrapping(s).(dir := Opposite(s.dir));
    if CanStep(s) {
      StepWrappingAgrees(s);
      StepOppositeReturns(s);
      StepWrappingAgrees(t);
    } else {
      WrapAtEdges();
    }
  }

  /**
    `k` ticks of a debug build (the body of the loop in
    `GameState::update`, run `k` times): the snake ends `k` cells further
    along its heading, with the heading unchanged.
   */
  function Run(s: Snake, k: nat): (r: Snake)
    requires CanRun(s, k)
    ensures Pos(r) == Ahead(s, k)
    ensures r.dir == s.dir
    decreases k
  {
    if k == 0 then s else Run(Step(s), k - 1)
  }

  /** Running `a` ticks and then `b` more is running `a + b` ticks. */
  lemma RunAdditive(s: Snake, a: nat, b: nat)
    requires CanRun(s, a + b)
    ensures CanRun(s, a) && CanRun(Run(s, a), b)
    ensures Run(Run(s, a), b) == Run(s, a + b)
  {
  }

  /** From the start state, `k` ticks put the snake at `(k, 0)`. */
  lemma RunFromInit(k: nat)
    requires k <= MAX
    ensures CanRun(Init(), k)
    ensures Run(Init(), k) == Snake(k as i32, 0, Right)
  {
  }
}
