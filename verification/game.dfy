/**
  The event handlers of `GameState` in src/main.rs. The game state holds
  nothing but the snake, so it is modelled as the snake itself.
 */
module Game {
  import Snakes

  /** The keys the handler distinguishes; `Other` stands for every non-arrow key. */
  datatype Key = Left | Right | Up | Down | Other

  /** The arrow key that selects heading `d` (the inverse of the key mapping). */
  function KeyFor(d: Snakes.Direction): (k: Key)
    ensures k != Other
  {
    match d
    case Left => Left
    case Right => Right
    case Up => Up
    case Down => Down
  }

  /** `GameState::new`: the game starts with a new snake. */
  function NewGame(): (g: Snakes.Snake)
    ensures Snakes.Pos(g) == (0, 0) && g.dir == Snakes.Right
  {
    Snakes.Init()
  }

  /**
    `GameState::key_down_event`: an arrow key turns the snake to the
    matching heading; any other key is ignored. The snake's cell never
    changes, and there is no guard against turning round.
   */
  function OnKey(s: Snakes.Snake, k: Key): (r: Snakes.Snake)
    ensures r.x == s.x && r.y == s.y
    ensures k != Other ==> KeyFor(r.dir) == k
    ensures k == Other ==> r == s
  {
    match k
    case Left => s.(dir := Snakes.Left)
    case Right => s.(dir := Snakes.Right)
    case Up => s.(dir := Snakes.Up)
    case Down => s.(dir := Snakes.Down)
    case Other => s
  }

  /** Every heading is reachable, from any state, by exactly its own arrow key. */
  lemma OnKeySelects(s: Snakes.Snake, d: Snakes.Direction, k: Key)
    requires k != Other
    ensures OnKey(s, KeyFor(d)) == s.(dir := d)
    ensures OnKey(s, k).dir == d <==> k == KeyFor(d)
  {
  }

  /** The latest arrow key wins; pressing a key twice is the same as pressing it once. */
  lemma OnKeyLastWins(s: Snakes.Snake, k1: Key, k2: Key)
    ensures k2 != Other ==> OnKey(OnKey(s, k1), k2) == OnKey(s, k2)
    ensures OnKey(OnKey(s, k2), k2) == OnKey(s, k2)
  {
  }

  /**
    Pressing Left and ticking, then Right and ticking (or Up then Down, and
    so on) returns the snake to its cell.
   */
  lemma KeyRoundTrip(s: Snakes.Snake, d: Snakes.Direction)
    requires Snakes.CanStep(OnKey(s, KeyFor(d)))
    ensures Snakes.CanStep(OnKey(Snakes.Step(OnKey(s, KeyFor(d))), KeyFor(Snakes.Opposite(d))))
    ensures Snakes.Pos(Snakes.Step(OnKey(Snakes.Step(OnKey(s, KeyFor(d))), KeyFor(Snakes.Opposite(d)))))
         == Snakes.Pos(s)
  {
    var t := OnKey(s, KeyFor(d));
    OnKeySelects(s, d, KeyFor(d));
    Snakes.StepOppositeReturns(t);
    OnKeySelects(Snakes.Step(t), Snakes.Opposite(d), KeyFor(Snakes.Opposite(d)));
  }

  /**
    `GameState::update` in a debug build: the snake is ticked once for each
    time the engine's fixed-timestep timer fires (`ticks` of them), stopping
    at the first tick that reports an error. No tick fails, so the result is
    always the snake `ticks` cells further along its heading.
   */
  method Update(s: Snakes.Snake, ticks: nat) returns (r: Snakes.GameResult<Snakes.Snake>)
    requires Snakes.CanRun(s, ticks)
    ensures r.Ok?
    ensures Snakes.Pos(r.value) == Snakes.Ahead(s, ticks) && r.value.dir == s.dir
    ensures r.value == Snakes.Run(s, ticks)
  {
    r := Snakes.Ok(s);
    var i := 0;
    while i < ticks && r.Ok?
      invariant i <= ticks
      invariant r.Ok?
      invariant Snakes.Pos(r.value) == Snakes.Ahead(s, i) && r.value.dir == s.dir
    {
      r := Snakes.Update(r.value);
      i := i + 1;
    }
  }
}
