/**
 * The Snake engine as the object the source defines (class SnakeGame in
 * assets/js/snake.js): private fields updated in place by reset, the frame
 * callback, the step and the input handlers. Each method is specified by the
 * functions of module Snake.
 */
module SnakeEngine {
  import opened Wrappers
  import opened Snake

  /** A copy of the fields getState hands out and setState takes in. */
  datatype Snapshot = Snapshot(body: seq<Vec>, apple: Vec, score: nat, record: nat, alive: bool)

  class SnakeGame {
    /** Cells per grid side (canvas width over the 20-pixel tile). */
    const count: int
    var body: seq<Vec>
    var dir: Vec
    var nextDir: Vec
    var apple: Vec
    var score: nat
    var record: nat
    var alive: bool
    var lastFrameTime: int
    var touch: Touch

    /** The engine's state as a value. */
    function State(): Game
      reads this
    {
      Game(body, dir, nextDir, apple, score, record, alive)
    }

    predicate Valid()
      reads this
    {
      5 < count && Inv(State(), count)
    }

    /** Binds the grid, reads the stored record and resets. */
    constructor (count: int, storedRecord: nat, candidates: seq<Vec>)
      requires 5 < count
      requires AllInGrid(candidates, count) && HasFree(candidates, [Origin])
      ensures Valid() && this.count == count
      ensures State() == ResetGame(storedRecord, candidates)
      ensures lastFrameTime == 0 && touch == Untouched
    {
      this.count := count;
      body, dir, nextDir, apple := [Origin], Right, Right, Origin;
      score, record, alive := 0, storedRecord, true;
      lastFrameTime, touch := 0, Untouched;
      new;
      Reset(candidates);
    }

    /** Back to one cell at (5, 5) heading right with score 0; the record is kept. */
    method Reset(candidates: seq<Vec>)
      requires 5 < count
      requires AllInGrid(candidates, count) && HasFree(candidates, [Origin])
      modifies this
      ensures Valid()
      ensures State() == ResetGame(old(record), candidates)
      ensures lastFrameTime == 0 && touch == old(touch)
    {
      body := [Origin];
      dir := Right;
      nextDir := Right;
      score := 0;
      alive := true;
      SpawnApple(candidates);
      lastFrameTime := 0;
      ResetEstablishesInv(record, count, candidates);
    }

    /** Rejection sampling: draws cells from the random stream until one is off the body. */
    method SpawnApple(candidates: seq<Vec>)
      requires HasFree(candidates, body)
      modifies this`apple
      ensures apple == candidates[FirstFree(candidates, body)]
      ensures AllInGrid(candidates, count) ==> InGrid(apple, count)
      ensures apple !in body
    {
      var i := 0;
      apple := candidates[i];
      while apple in body
        invariant 0 <= i <= FirstFree(candidates, body)
        invariant apple == candidates[i]
        decreases FirstFree(candidates, body) - i
      {
        i := i + 1;
        apple := candidates[i];
      }
    }

    /** The animation-frame callback: steps only while alive and once 120 ms have passed since the last step. */
    method Loop(time: int, candidates: seq<Vec>)
      requires Valid()
      requires alive && time - lastFrameTime >= StepInterval ==> Feeds(State(), count, candidates)
      modifies this
      ensures Valid() && touch == old(touch)
      ensures old(alive) && time - old(lastFrameTime) >= StepInterval ==>
                State() == Step(old(State()), count, candidates) && lastFrameTime == time
      ensures !(old(alive) && time - old(lastFrameTime) >= StepInterval) ==>
                State() == old(State()) && lastFrameTime == old(lastFrameTime)
    {
      if !alive {
        return;
      }
      if time - lastFrameTime >= StepInterval {
        lastFrameTime := time;
        StepPreservesInv(State(), count, candidates);
        Update(candidates);
      }
    }

    /** One step: commit the pending direction, then die, grow or move. */
    method Update(candidates: seq<Vec>)
      requires |body| > 0 && Feeds(State(), count, candidates)
      modifies this
      ensures State() == Step(old(State()), count, candidates)
      ensures lastFrameTime == old(lastFrameTime) && touch == old(touch)
    {
      dir := nextDir;
      var head := Plus(body[0], dir);
      if head.x < 0 || head.y < 0 || head.x >= count || head.y >= count || head in body {
        alive := false;
        return;
      }
      body := [head] + body;
      if head == apple {
        score := score + 1;
        if score > record {
          record := score;
        }
        SpawnApple(candidates);
      } else {
        body := body[..|body| - 1];
      }
    }

    /** The keydown handler. */
    method KeyDown(key: string)
      modifies this`nextDir
      ensures old(Valid()) ==> Valid()
      ensures nextDir == PressKey(key, dir, old(nextDir))
    {
      var d := KeyVector(key);
      if d.Some? && (d.value.x != -dir.x || d.value.y != -dir.y) {
        nextDir := d.value;
      }
    }

    /** The touchstart handler: remembers where the gesture began. */
    method TouchStart(x: real, y: real)
      modifies this`touch
      ensures touch == TouchBegin(x, y)
    {
      touch := TouchBegin(x, y);
    }

    /** The touchmove handler: the first move of a gesture steers, with no reversal check. */
    method TouchMoved(x: real, y: real)
      modifies this`touch, this`nextDir
      ensures old(Valid()) ==> Valid()
      ensures touch == TouchMove(old(touch), x, y).0
      ensures nextDir == (if old(touch).armed then Swipe(x - old(touch).startX, y - old(touch).startY)
                          else old(nextDir))
    {
      if touch.armed {
        nextDir := Swipe(x - touch.startX, y - touch.startY);
        touch := touch.(armed := false);
      }
    }

    /** Stops the game: only the liveness flag is modelled. */
    method Stop()
      modifies this`alive
      ensures old(Valid()) ==> Valid()
      ensures !alive
    {
      alive := false;
    }

    /** Resets a stopped or dead game; a live game goes on untouched. */
    method Start(candidates: seq<Vec>)
      requires 5 < count
      requires !alive ==> AllInGrid(candidates, count) && HasFree(candidates, [Origin])
      modifies this
      ensures alive && touch == old(touch)
      ensures old(Valid()) || !old(alive) ==> Valid()
      ensures old(alive) ==> State() == old(State()) && lastFrameTime == old(lastFrameTime)
      ensures !old(alive) ==> State() == ResetGame(old(record), candidates) && lastFrameTime == 0
    {
      if !alive {
        Reset(candidates);
      }
    }

    method IsRunning() returns (running: bool)
      ensures running == alive
    {
      running := alive;
    }

    /** The body, apple, score, record and liveness as a value (not the directions). */
    method GetState() returns (s: Snapshot)
      ensures s == Snapshot(body, apple, score, record, alive)
    {
      s := Snapshot(body, apple, score, record, alive);
    }

    /** Overwrites the five fields unchecked: the result need not satisfy Valid(). */
    method SetState(s: Snapshot)
      modifies this`body, this`apple, this`score, this`record, this`alive
      ensures body == s.body && apple == s.apple && score == s.score && record == s.record && alive == s.alive
    {
      body, apple, score, record, alive := s.body, s.apple, s.score, s.record, s.alive;
    }
  }
}
