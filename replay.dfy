/** The game-replay player of main.py (the simulation screen).  The replayed
    moves are pushed onto and popped off the engine's board; the model keeps
    that board's move stack as `played`, so the cursor `index` can be checked
    against it.  Moves are UCI text. */
module Replay {

  /** Playback speeds, milliseconds per move. */
  const FastSpeed: int := 200
  const SlowSpeed: int := 1000

  /** The speed button: anything up to 200 ms becomes 1000 ms, anything else 200 ms. */
  function ToggledSpeed(speed: int): (r: int)
    ensures r == FastSpeed || r == SlowSpeed
    ensures r == SlowSpeed <==> speed <= FastSpeed
  {
    if speed <= FastSpeed then SlowSpeed else FastSpeed
  }

  /** On the two speeds it produces, the button alternates between them. */
  lemma ToggleAlternates(speed: int)
    requires speed == FastSpeed || speed == SlowSpeed
    ensures ToggledSpeed(ToggledSpeed(speed)) == speed
    ensures ToggledSpeed(speed) != speed
  {
  }

  class ReplayPlayer {
    var moves: seq<string>
    var index: nat
    var auto: bool
    var speed: int
    var timer: int
    var played: seq<string>

    /** The board holds exactly the first `index` moves of the game. */
    ghost predicate Valid()
      reads this
    {
      index <= |moves| && played == moves[..index]
    }

    /** The replay state before any game is loaded. */
    constructor ()
      ensures Valid()
      ensures moves == [] && index == 0 && !auto && speed == SlowSpeed && timer == 0 && played == []
    {
      moves, index, auto, speed, timer, played := [], 0, false, SlowSpeed, 0, [];
    }

    /** Choosing a game: its moves are loaded, the board is reset and playback
        is paused at the start. */
    method Load(game: seq<string>)
      modifies this
      ensures Valid()
      ensures moves == game && index == 0 && !auto && timer == 0 && played == [] && speed == old(speed)
    {
      moves := game;
      played := [];
      index := 0;
      auto := false;
      timer := 0;
    }

    /** One frame of automatic playback: every `speed` milliseconds the next
        move is played; at the end of the game playback stops. */
    method Tick(dt: int)
      requires Valid()
      modifies this`timer, this`index, this`played, this`auto
      ensures Valid()
      ensures !old(auto) ==> index == old(index) && timer == old(timer) && !auto
      ensures old(auto) && old(timer) + dt < speed ==>
                timer == old(timer) + dt && index == old(index) && auto
      ensures old(auto) && old(timer) + dt >= speed ==>
                timer == 0 &&
                (if old(index) < |moves| then index == old(index) + 1 && auto
                 else index == old(index) && !auto)
    {
      if auto {
        timer := timer + dt;
        if timer >= speed {
          timer := 0;
          if index < |moves| {
            played := played + [moves[index]];
            index := index + 1;
          } else {
            auto := false;
          }
        }
      }
    }

    /** "Next" (right arrow or the > button): plays one move if any is left
        and pauses. */
    method StepForward()
      requires Valid()
      modifies this`index, this`played, this`auto
      ensures Valid()
      ensures old(index) < |moves| ==> index == old(index) + 1 && !auto
      ensures old(index) == |moves| ==> index == old(index) && auto == old(auto)
    {
      if index < |moves| {
        played := played + [moves[index]];
        index := index + 1;
        auto := false;
      }
    }

    /** "Prev" (left arrow or the < button): takes back one move if any was
        played and pauses. */
    method StepBack()
      requires Valid()
      modifies this`index, this`played, this`auto
      ensures Valid()
      ensures old(index) > 0 ==> index == old(index) - 1 && !auto
      ensures old(index) == 0 ==> index == 0 && auto == old(auto)
    {
      if index > 0 {
        played := played[..|played| - 1];
        index := index - 1;
        auto := false;
      }
    }

    /** Space or the play/pause button. */
    method TogglePlay()
      modifies this`auto
      ensures auto == !old(auto)
    {
      auto := !auto;
    }

    /** The << button: takes back moves until none is left, then pauses. */
    method Rewind()
      requires Valid()
      modifies this`index, this`played, this`auto
      ensures Valid()
      ensures index == 0 && played == [] && !auto
    {
      while index > 0
        invariant Valid()
        decreases index
      {
        played := played[..|played| - 1];
        index := index - 1;
      }
      auto := false;
    }

    /** The >> button: plays moves until the game is over, then pauses. */
    method FastForward()
      requires Valid()
      modifies this`index, this`played, this`auto
      ensures Valid()
      ensures index == |moves| && played == moves && !auto
    {
      while index < |moves|
        invariant Valid()
        decreases |moves| - index
      {
        played := played + [moves[index]];
        index := index + 1;
      }
      auto := false;
    }

    /** The speed button. */
    method ToggleSpeed()
      modifies this`speed
      ensures speed == ToggledSpeed(old(speed))
    {
      if speed <= FastSpeed {
        speed := SlowSpeed;
      } else {
        speed := FastSpeed;
      }
    }
  }
}
