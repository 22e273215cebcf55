/**
 * The rules of the Snake engine (assets/js/snake.js) as values and functions:
 * grid cells and direction vectors, the arrow-key and swipe filters, the touch
 * tracker, the apple's rejection sampling and one simulation step.
 * The class in SnakeEngine is specified by these functions.
 */
module Snake {
  import opened Wrappers

  /** A grid cell, or a direction vector (the source's `{ x, y }` objects). */
  datatype Vec = Vec(x: int, y: int)

  const Up := Vec(0, -1)
  const Down := Vec(0, 1)
  const Left := Vec(-1, 0)
  const Right := Vec(1, 0)

  /** The cell the body occupies after a reset. */
  const Origin := Vec(5, 5)

  /** Milliseconds that must pass between two simulation steps. */
  const StepInterval := 120

  function Plus(a: Vec, b: Vec): Vec {
    Vec(a.x + b.x, a.y + b.y)
  }

  function Neg(v: Vec): Vec {
    Vec(-v.x, -v.y)
  }

  /** One of the four directions the snake can travel in. */
  predicate IsUnit(v: Vec) {
    v == Up || v == Down || v == Left || v == Right
  }

  predicate InGrid(c: Vec, count: int) {
    0 <= c.x < count && 0 <= c.y < count
  }

  predicate AllInGrid(s: seq<Vec>, count: int) {
    forall i :: 0 <= i < |s| ==> InGrid(s[i], count)
  }

  predicate Distinct(s: seq<Vec>) {
    forall i, j :: 0 <= i < j < |s| ==> s[i] != s[j]
  }

  /** Every cell of the body is one unit step away from the cell after it. */
  predicate Connected(s: seq<Vec>) {
    forall i :: 0 <= i < |s| - 1 ==> IsUnit(Plus(s[i], Neg(s[i + 1])))
  }

  // ---------------------------------------------------------------------------
  // Input: arrow keys and swipes
  // ---------------------------------------------------------------------------

  /** The key-to-direction table of the keydown handler; other keys map to nothing. */
  function KeyVector(key: string): (r: Option<Vec>)
    ensures r.Some? <==> key in {"ArrowUp", "ArrowDown", "ArrowLeft", "ArrowRight"}
    ensures r.Some? ==> IsUnit(r.value)
    ensures r == Some(Up) <==> key == "ArrowUp"
    ensures r == Some(Down) <==> key == "ArrowDown"
    ensures r == Some(Left) <==> key == "ArrowLeft"
    ensures r == Some(Right) <==> key == "ArrowRight"
  {
    if key == "ArrowUp" then Some(Up)
    else if key == "ArrowDown" then Some(Down)
    else if key == "ArrowLeft" then Some(Left)
    else if key == "ArrowRight" then Some(Right)
    else None
  }

  /**
   * The pending direction after a key press. A mapped key replaces the
   * pending direction unless it is the exact opposite of the COMMITTED
   * direction; any other key leaves it alone.
   */
  function PressKey(key: string, dir: Vec, nextDir: Vec): (r: Vec)
    ensures r != nextDir ==> KeyVector(key) == Some(r) && r != Neg(dir)
    ensures KeyVector(key).Some? && KeyVector(key).value != Neg(dir) ==> r == KeyVector(key).value
    ensures (KeyVector(key).None? || KeyVector(key).value == Neg(dir)) ==> r == nextDir
  {
    match KeyVector(key)
    case Some(d) => if d != Neg(dir) then d else nextDir
    case None => nextDir
  }

  function Abs(r: real): real {
    if r < 0.0 then -r else r
  }

  /**
   * The swipe classifier: horizontal exactly when the horizontal delta is
   * strictly larger in magnitude, with the sign of dx; otherwise vertical,
   * and down only for a strictly positive dy, so ties and a zero delta go up.
   * There is no reversal check.
   */
  function Swipe(dx: real, dy: real): (r: Vec)
    ensures IsUnit(r)
    ensures r.x != 0 <==> Abs(dx) > Abs(dy)
    ensures r.x > 0 <==> Abs(dx) > Abs(dy) && dx > 0.0
    ensures r.y > 0 <==> Abs(dx) <= Abs(dy) && dy > 0.0
  {
    if Abs(dx) > Abs(dy) then
      if dx > 0.0 then Right else Left
    else
      if dy > 0.0 then Down else Up
  }

  /**
   * What the touch handlers remember between events: where the gesture
   * started, and whether the gesture may still steer.
   */
  datatype Touch = Touch(startX: real, startY: real, armed: bool)

  /** The tracker before any touch (both start coordinates are 0). */
  const Untouched := Touch(0.0, 0.0, true)

  /** A touchstart at (x, y) begins a gesture. */
  function TouchBegin(x: real, y: real): (t: Touch)
    ensures t.armed && t.startX == x && t.startY == y
  {
    Touch(x, y, true)
  }

  /**
   * The touchmove handler as the source writes it: it always steers, by the
   * delta from the remembered start, and then sets the remembered start to 0,
   * so any later move of the same gesture is measured from the screen corner.
   */
  function TouchMoveAsWritten(t: Touch, x: real, y: real): (r: (Touch, Vec))
    ensures r.1 == Swipe(x - t.startX, y - t.startY)
    ensures r.0.startX == 0.0 && r.0.startY == 0.0
  {
    (t.(startX := 0.0, startY := 0.0), Swipe(x - t.startX, y - t.startY))
  }

  /**
   * The touchmove handler as its "prevent multi-move" comment intends: the
   * first move of a gesture steers by the delta from the start, and the
   * gesture cannot steer again until the next touchstart.
   */
  function TouchMove(t: Touch, x: real, y: real): (r: (Touch, Option<Vec>))
    ensures r.1.Some? <==> t.armed
    ensures r.1.Some? ==> r.1.value == Swipe(x - t.startX, y - t.startY)
    ensures !r.0.armed
  {
    if t.armed then (t.(armed := false), Some(Swipe(x - t.startX, y - t.startY)))
    else (t, None)
  }

  /** The directions one gesture's touchmove events assign, in order, as written. */
  function SteersAsWritten(t: Touch, moves: seq<(real, real)>): (r: seq<Vec>)
    ensures |r| == |moves|
    ensures moves != [] ==> r[0] == Swipe(moves[0].0 - t.startX, moves[0].1 - t.startY)
    decreases |moves|
  {
    if moves == [] then []
    else
      var next := TouchMoveAsWritten(t, moves[0].0, moves[0].1);
      [next.1] + SteersAsWritten(next.0, moves[1..])
  }

  /** The directions one gesture's touchmove events assign, in order, as intended. */
  function Steers(t: Touch, moves: seq<(real, real)>): seq<Vec>
    decreases |moves|
  {
    if moves == [] then []
    else
      var next := TouchMove(t, moves[0].0, moves[0].1);
      (if next.1.Some? then [next.1.value] else []) + Steers(next.0, moves[1..])
  }

  /**
   * As written, continuing a leftward swipe turns the snake right: the second
   * move is measured from (0, 0), where dx = 249 outweighs dy = 100.
   */
  lemma ContinuedSwipeReverses()
    ensures SteersAsWritten(TouchBegin(300.0, 100.0), [(250.0, 100.0), (249.0, 100.0)]) == [Left, Right]
  {
    var t := TouchBegin(300.0, 100.0);
    var first := TouchMoveAsWritten(t, 250.0, 100.0);
    assert first.1 == Left;
    var second := TouchMoveAsWritten(first.0, 249.0, 100.0);
    assert second.1 == Right;
    assert SteersAsWritten(second.0, []) == [];
  }

  /** As written, from a start of (0, 0) every move steers by its absolute screen position. */
  lemma {:induction false} SteersFromCorner(t: Touch, moves: seq<(real, real)>, k: nat)
    requires t.startX == 0.0 && t.startY == 0.0 && k < |moves|
    ensures SteersAsWritten(t, moves)[k] == Swipe(moves[k].0, moves[k].1)
    decreases k
  {
    if k > 0 {
      SteersFromCorner(TouchMoveAsWritten(t, moves[0].0, moves[0].1).0, moves[1..], k - 1);
    }
  }

  /**
   * As written, every touchmove of a gesture after the first steers by the
   * absolute screen coordinates of the touch, not by its delta from the start.
   */
  lemma LaterMovesSteerByPosition(t: Touch, moves: seq<(real, real)>, k: nat)
    requires 1 <= k < |moves|
    ensures SteersAsWritten(t, moves)[k] == Swipe(moves[k].0, moves[k].1)
  {
    SteersFromCorner(TouchMoveAsWritten(t, moves[0].0, moves[0].1).0, moves[1..], k - 1);
  }

  /** A gesture that can no longer steer stays silent whatever its moves. */
  lemma {:induction false} DisarmedIsSilent(t: Touch, moves: seq<(real, real)>)
    requires !t.armed
    ensures Steers(t, moves) == []
    decreases |moves|
  {
    if moves != [] {
      DisarmedIsSilent(TouchMove(t, moves[0].0, moves[0].1).0, moves[1..]);
    }
  }

  /** A gesture steers at most once: by its first move, measured from where it started. */
  lemma {:induction false} GestureSteersOnce(x: real, y: real, moves: seq<(real, real)>)
    ensures Steers(TouchBegin(x, y), moves) ==
            if moves == [] then [] else [Swipe(moves[0].0 - x, moves[0].1 - y)]
  {
    if moves != [] {
      DisarmedIsSilent(TouchMove(TouchBegin(x, y), moves[0].0, moves[0].1).0, moves[1..]);
    }
  }

  // ---------------------------------------------------------------------------
  // The apple: rejection sampling over a stream of random cells
  // ---------------------------------------------------------------------------

  /** Some cell of the stream is off the body. */
  predicate HasFree(candidates: seq<Vec>, body: seq<Vec>) {
    exists i :: 0 <= i < |candidates| && candidates[i] !in body
  }

  /** The position of the first cell of the stream that is off the body. */
  function FirstFree(candidates: seq<Vec>, body: seq<Vec>): (k: nat)
    requires HasFree(candidates, body)
    ensures k < |candidates| && candidates[k] !in body
    ensures forall j :: 0 <= j < k ==> candidates[j] in body
    decreases |candidates|
  {
    if candidates[0] !in body then 0
    else
      assert HasFree(candidates[1..], body) by {
        var i :| 0 <= i < |candidates| && candidates[i] !in body;
        assert candidates[1..][i - 1] == candidates[i];
      }
      1 + FirstFree(candidates[1..], body)
  }

  // ---------------------------------------------------------------------------
  // The game state and one step
  // ---------------------------------------------------------------------------

  /** The engine's state: body (head first), committed and pending direction, apple, score, record, liveness. */
  datatype Game = Game(body: seq<Vec>, dir: Vec, nextDir: Vec, apple: Vec, score: nat, record: nat, alive: bool)

  /**
   * What every reachable state satisfies: one cell per point plus the head,
   * no cell twice, all cells and the apple in the grid, the apple off the
   * body, the record at least the score, and (while alive) the head one
   * committed step ahead of the next cell.
   */
  predicate Inv(g: Game, count: int) {
    && |g.body| == g.score + 1
    && Distinct(g.body)
    && AllInGrid(g.body, count)
    && Connected(g.body)
    && InGrid(g.apple, count)
    && g.apple !in g.body
    && g.record >= g.score
    && IsUnit(g.dir)
    && IsUnit(g.nextDir)
    && (g.alive && |g.body| >= 2 ==> Plus(g.body[1], g.dir) == g.body[0])
  }

  /** The state after a reset: one cell at (5, 5), heading right, score 0, the first free cell of the stream as apple. */
  function ResetGame(record: nat, candidates: seq<Vec>): (g: Game)
    requires HasFree(candidates, [Origin])
    ensures g.body == [Origin] && g.dir == Right && g.nextDir == Right
    ensures g.score == 0 && g.record == record && g.alive
    ensures g.apple != Origin && g.apple in candidates
  {
    Game([Origin], Right, Right, candidates[FirstFree(candidates, [Origin])], 0, record, true)
  }

  lemma ResetEstablishesInv(record: nat, count: int, candidates: seq<Vec>)
    requires 5 < count
    requires AllInGrid(candidates, count) && HasFree(candidates, [Origin])
    ensures Inv(ResetGame(record, candidates), count)
  {
  }

  /** Where the head goes once the pending direction is committed. */
  function NextHead(g: Game): Vec
    requires |g.body| > 0
  {
    Plus(g.body[0], g.nextDir)
  }

  /** A head off the grid, or on any current body cell (the tail included), kills the snake. */
  predicate Collides(head: Vec, body: seq<Vec>, count: int) {
    !InGrid(head, count) || head in body
  }

  /** The step lands on the apple. */
  predicate Eats(g: Game, count: int)
    requires |g.body| > 0
  {
    !Collides(NextHead(g), g.body, count) && NextHead(g) == g.apple
  }

  /**
   * What the step demands of the random stream: when it eats, a stream of
   * in-grid cells holding a cell off the grown body (the source's sampling
   * loop never ends otherwise).
   */
  predicate Feeds(g: Game, count: int, candidates: seq<Vec>)
    requires |g.body| > 0
  {
    Eats(g, count) ==> AllInGrid(candidates, count) && HasFree(candidates, [g.apple] + g.body)
  }

  /** One simulation step. */
  function Step(g: Game, count: int, candidates: seq<Vec>): (r: Game)
    requires |g.body| > 0 && Feeds(g, count, candidates)
    // the pending direction is committed on every step, fatal or not
    ensures r.dir == g.nextDir && r.nextDir == g.nextDir
    // death: exactly a collision, and nothing else changes
    ensures r.alive <==> g.alive && !Collides(NextHead(g), g.body, count)
    ensures Collides(NextHead(g), g.body, count) ==>
              r.body == g.body && r.score == g.score && r.apple == g.apple && r.record == g.record
    // a plain move: the new head, then the old body without its last cell
    ensures !Collides(NextHead(g), g.body, count) && NextHead(g) != g.apple ==>
              r.body == [NextHead(g)] + g.body[..|g.body| - 1] && |r.body| == |g.body| &&
              r.score == g.score && r.apple == g.apple && r.record == g.record
    // eating: one more point, one more cell, record raised to the score, a fresh apple off the body
    ensures Eats(g, count) ==>
              r.body == [g.apple] + g.body && r.score == g.score + 1 && |r.body| == |g.body| + 1 &&
              r.record == (if g.score + 1 > g.record then g.score + 1 else g.record) &&
              InGrid(r.apple, count) && r.apple !in r.body
  {
    var head := NextHead(g);
    if Collides(head, g.body, count) then
      g.(dir := g.nextDir, alive := false)
    else if head == g.apple then
      var body := [head] + g.body;
      var score := g.score + 1;
      g.(body := body, dir := g.nextDir, score := score,
         record := if score > g.record then score else g.record,
         apple := candidates[FirstFree(candidates, body)])
    else
      g.(body := [head] + g.body[..|g.body| - 1], dir := g.nextDir)
  }

  /** Every step preserves the invariant, fatal or not. */
  lemma StepPreservesInv(g: Game, count: int, candidates: seq<Vec>)
    requires Inv(g, count) && Feeds(g, count, candidates)
    ensures Inv(Step(g, count, candidates), count)
  {
    var head := NextHead(g);
    var r := Step(g, count, candidates);
    if !Collides(head, g.body, count) {
      // in both branches the body behind the new head is a prefix of the old body
      assert r.body[0] == head && r.body[1..] == g.body[..|r.body| - 1];
      forall i, j | 0 <= i < j < |r.body| ensures r.body[i] != r.body[j] {
        if i > 0 {
          assert r.body[i] == g.body[i - 1] && r.body[j] == g.body[j - 1];
        }
      }
      forall i | 0 <= i < |r.body| - 1 ensures IsUnit(Plus(r.body[i], Neg(r.body[i + 1]))) {
        if i > 0 {
          assert r.body[i] == g.body[i - 1] && r.body[i + 1] == g.body[i];
        }
      }
    }
  }

  /**
   * Reversing into the body is fatal: a pending direction opposite to the
   * committed one sends the head onto the second cell.
   */
  lemma ReverseIsFatal(g: Game, count: int, candidates: seq<Vec>)
    requires Inv(g, count) && Feeds(g, count, candidates)
    requires g.alive && |g.body| >= 2 && g.nextDir == Neg(g.dir)
    ensures !Step(g, count, candidates).alive
  {
    assert NextHead(g) == g.body[1];
  }

  /** Arrow keys alone never set up a reversal: a pending direction that is not opposite stays so. */
  lemma KeysNeverReverse(key: string, dir: Vec, nextDir: Vec)
    requires nextDir != Neg(dir)
    ensures PressKey(key, dir, nextDir) != Neg(dir)
  {
  }
}
