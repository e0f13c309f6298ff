/**
 * The end-of-frame bookkeeping of the scene's update: the game-over latch at
 * the terminal row and the elapsed-time counter, over one frame and over a
 * run of frames.
 */
module Timing {

  /** Reaching this row ends the level. */
  const GameOverRow: int := 30

  /** The scene's elapsed time together with the player's game-over flag. */
  datatype Clock = Clock(totalTime: real, isGameOver: bool)

  /** What the end of one frame reads: the player's row, whether it is dead, and the frame time. */
  datatype Frame = Frame(tileRow: int, isDead: bool, delta: real)

  /**
   * One frame: the game-over flag is latched first, and time is added only
   * when the player is neither dead nor game-over after that latch.
   */
  function Tick(c: Clock, f: Frame): (r: Clock)
    ensures c.isGameOver ==> r == c
    ensures f.tileRow >= GameOverRow ==> r.isGameOver && r.totalTime == c.totalTime
    ensures f.isDead ==> r.totalTime == c.totalTime
    ensures !c.isGameOver && f.tileRow < GameOverRow ==> !r.isGameOver
    ensures !c.isGameOver && f.tileRow < GameOverRow && !f.isDead ==> r.totalTime == c.totalTime + f.delta
  {
    var over := c.isGameOver || f.tileRow >= GameOverRow;
    Clock(if !f.isDead && !over then c.totalTime + f.delta else c.totalTime, over)
  }

  /** The clock after a sequence of frames, first frame first. */
  function Run(c: Clock, frames: seq<Frame>): Clock
    decreases frames
  {
    if frames == [] then c else Run(Tick(c, frames[0]), frames[1..])
  }

  /** Running `a` and then `b` is running their concatenation. */
  lemma {:induction false} RunAppend(c: Clock, a: seq<Frame>, b: seq<Frame>)
    ensures Run(c, a + b) == Run(Run(c, a), b)
    decreases a
  {
    if a != [] {
      assert (a + b)[1..] == a[1..] + b;
      RunAppend(Tick(c, a[0]), a[1..], b);
    } else {
      assert a + b == b;
    }
  }

  /** Once game-over, no later frame clears the flag or adds time. */
  lemma {:induction false} GameOverIsFinal(c: Clock, frames: seq<Frame>)
    requires c.isGameOver
    ensures Run(c, frames) == c
    decreases frames
  {
    if frames != [] {
      GameOverIsFinal(Tick(c, frames[0]), frames[1..]);
    }
  }

  /**
   * Starting before game-over, the flag is set after a run exactly when some
   * frame of the run saw the player on the terminal row or beyond.
   */
  lemma {:induction false} GameOverExactlyWhenRowReached(c: Clock, frames: seq<Frame>)
    requires !c.isGameOver
    ensures Run(c, frames).isGameOver <==>
              exists k :: 0 <= k < |frames| && frames[k].tileRow >= GameOverRow
    decreases frames
  {
    if frames != [] {
      var next := Tick(c, frames[0]);
      if next.isGameOver {
        GameOverIsFinal(next, frames[1..]);
      } else {
        GameOverExactlyWhenRowReached(next, frames[1..]);
        if exists k :: 0 <= k < |frames| && frames[k].tileRow >= GameOverRow {
          var k :| 0 <= k < |frames| && frames[k].tileRow >= GameOverRow;
          assert frames[1..][k - 1] == frames[k];
        }
      }
    }
  }

  /**
   * Time stops on the frame that first sees the terminal row: from that
   * frame on, the clock reads what it read before it.
   */
  lemma TimeStopsAtGameOverRow(c: Clock, frames: seq<Frame>, k: int)
    requires 0 <= k < |frames| && frames[k].tileRow >= GameOverRow
    ensures Run(c, frames).isGameOver
    ensures Run(c, frames).totalTime == Run(c, frames[..k]).totalTime
  {
    assert frames == frames[..k] + frames[k..];
    RunAppend(c, frames[..k], frames[k..]);
    var before := Run(c, frames[..k]);
    assert Run(before, frames[k..]) == Run(Tick(before, frames[k]), frames[k + 1..]);
    GameOverIsFinal(Tick(before, frames[k]), frames[k + 1..]);
  }

  /** With non-negative frame times the elapsed time never decreases. */
  lemma {:induction false} TimeNeverDecreases(c: Clock, frames: seq<Frame>)
    requires forall k :: 0 <= k < |frames| ==> frames[k].delta >= 0.0
    ensures Run(c, frames).totalTime >= c.totalTime
    decreases frames
  {
    if frames != [] {
      TimeNeverDecreases(Tick(c, frames[0]), frames[1..]);
    }
  }
}
