/** The game clock and result mapping of `Engine` (src/engine.py).  The board
    itself is python-chess and is not part of this model; the millisecond tick
    counter `pygame.time.get_ticks()` is passed in as `now`. */
module GameClock {
  import opened Wrappers

  /** Whole seconds in `ms` milliseconds, rounded down as Python's `// 1000`
      does (Dafny's `/` agrees with floor division for a positive divisor). */
  function Seconds(ms: int): (s: int)
    ensures s * 1000 <= ms < s * 1000 + 1000
  {
    ms / 1000
  }

  class Engine {
    var startTime: Option<int>
    var endTime: Option<int>
    var running: bool

    constructor ()
      ensures startTime == None && endTime == None && !running
    {
      startTime := None;
      endTime := None;
      running := false;
    }

    /** `start`: the clock runs from `now` and no end is recorded. */
    method Start(now: int)
      modifies this
      ensures startTime == Some(now) && running && endTime == None
      ensures forall t :: GameDuration(t) == Seconds(t - now)
    {
      startTime := Some(now);
      running := true;
      endTime := None;
    }

    /** `stop`: the clock stops at `now`; the start stays as it was. */
    method Stop(now: int)
      modifies this
      ensures endTime == Some(now) && !running && startTime == old(startTime)
      ensures forall t :: GameDuration(t) ==
                if startTime.Some? && now != 0 then Seconds(now - startTime.value) else 0
    {
      endTime := Some(now);
      running := false;
    }

    /** `get_game_duration` at tick `now`: 0 before any start, the seconds
        elapsed so far while running, and afterwards the seconds between start
        and stop; an end tick of 0 is falsy in Python and also yields 0. */
    function GameDuration(now: int): (d: int)
      reads this
      ensures startTime.None? ==> d == 0
      ensures startTime.Some? && running ==> d * 1000 <= now - startTime.value < d * 1000 + 1000
      ensures startTime.Some? && !running && endTime.Some? && endTime.value != 0 ==>
                d * 1000 <= endTime.value - startTime.value < d * 1000 + 1000
      ensures !running && (endTime.None? || endTime.value == 0) ==> d == 0
    {
      if startTime.None? then 0
      else if running then Seconds(now - startTime.value)
      else if endTime.Some? && endTime.value != 0 then Seconds(endTime.value - startTime.value)
      else 0
    }

    /** While the clock runs, the duration never decreases as time passes. */
    lemma DurationMonotone(t1: int, t2: int)
      requires running && t1 <= t2
      ensures GameDuration(t1) <= GameDuration(t2)
    {
    }
  }

  /** `get_winner`: no winner while the game is on; otherwise '1-0' is a white
      win, '0-1' a black win and any other result a draw. */
  function Winner(gameOver: bool, result: string): (w: Option<string>)
    ensures w.None? <==> !gameOver
    ensures w == Some("white") <==> gameOver && result == "1-0"
    ensures w == Some("black") <==> gameOver && result == "0-1"
    ensures w == Some("draw") <==> gameOver && result != "1-0" && result != "0-1"
  {
    if !gameOver then None
    else if result == "1-0" then Some("white")
    else if result == "0-1" then Some("black")
    else Some("draw")
  }
}
