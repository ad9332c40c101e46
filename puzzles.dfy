/** `PuzzleManager` (src/puzzle_manager.py): a cursor over the expected line
    of a puzzle.  Moves are compared by their UCI text ("e2e4"); turning that
    text into a python-chess move object is not part of this model. */
module Puzzles {
  import opened Wrappers

  /** One puzzle of the puzzle file; only `moves` is read by the manager, and
      a puzzle record may lack it. */
  datatype Puzzle = Puzzle(id: string, fen: string, description: string, moves: Option<seq<string>>)

  /** What `get_random_puzzle` yields: None for an empty list, the chosen
      puzzle, or the `KeyError` raised when the chosen puzzle has no moves. */
  datatype Pick = NoPuzzle | Chosen(puzzle: Puzzle) | KeyError(key: string)

  class PuzzleManager {
    var puzzles: seq<Puzzle>
    var currentPuzzle: Option<Puzzle>
    var puzzleMoves: seq<string>
    var moveIndex: nat

    /** The cursor never runs past the end of the expected line. */
    ghost predicate Valid()
      reads this
    {
      moveIndex <= |puzzleMoves|
    }

    /** The manager starts with the loaded puzzle list (empty when the file is
        missing), no current puzzle and an empty line. */
    constructor (loaded: seq<Puzzle>)
      ensures Valid()
      ensures puzzles == loaded && currentPuzzle == None && puzzleMoves == [] && moveIndex == 0
    {
      puzzles := loaded;
      currentPuzzle := None;
      puzzleMoves := [];
      moveIndex := 0;
    }

    /** `get_random_puzzle`: with no puzzles nothing happens; otherwise some
        puzzle of the list (the random choice is left open) becomes current and
        the cursor goes back to its first move.  A chosen puzzle without moves
        is already current when the lookup of its moves raises, and the line
        and the cursor stay as they were. */
    method GetRandomPuzzle() returns (p: Pick)
      requires Valid()
      modifies this`currentPuzzle, this`puzzleMoves, this`moveIndex
      ensures Valid()
      ensures old(puzzles) == [] ==>
                p == NoPuzzle && currentPuzzle == old(currentPuzzle) &&
                puzzleMoves == old(puzzleMoves) && moveIndex == old(moveIndex)
      ensures old(puzzles) != [] ==>
                !p.NoPuzzle? && currentPuzzle.Some? && currentPuzzle.value in puzzles
      ensures p.Chosen? ==>
                currentPuzzle == Some(p.puzzle) && p.puzzle.moves.Some? &&
                puzzleMoves == p.puzzle.moves.value && moveIndex == 0
      ensures p.KeyError? ==>
                p.key == "moves" && currentPuzzle.value.moves.None? &&
                puzzleMoves == old(puzzleMoves) && moveIndex == old(moveIndex)
    {
      if puzzles == [] {
        return NoPuzzle;
      }
      var i :| 0 <= i < |puzzles|;
      currentPuzzle := Some(puzzles[i]);
      if puzzles[i].moves.None? {
        return KeyError("moves");
      }
      puzzleMoves := puzzles[i].moves.value;
      moveIndex := 0;
      p := Chosen(puzzles[i]);
    }

    /** `check_move`: returns (correct, finished).  Past the end of the line
        every move is (false, true); the expected move advances the cursor by
        one and reports whether the line is now done; any other move is
        (false, false) and changes nothing. */
    method CheckMove(move: string) returns (correct: bool, finished: bool)
      requires Valid()
      modifies this`moveIndex
      ensures Valid()
      ensures old(moveIndex) == |puzzleMoves| ==> !correct && finished && moveIndex == old(moveIndex)
      ensures old(moveIndex) < |puzzleMoves| && move == puzzleMoves[old(moveIndex)] ==>
                correct && moveIndex == old(moveIndex) + 1 && (finished <==> moveIndex == |puzzleMoves|)
      ensures old(moveIndex) < |puzzleMoves| && move != puzzleMoves[old(moveIndex)] ==>
                !correct && !finished && moveIndex == old(moveIndex)
    {
      if moveIndex >= |puzzleMoves| {
        return false, true;
      }
      var expected := puzzleMoves[moveIndex];
      if move == expected {
        moveIndex := moveIndex + 1;
        finished := moveIndex >= |puzzleMoves|;
        return true, finished;
      }
      return false, false;
    }

    /** `get_solution_move`: the move at the cursor, used as a hint, or None
        once the line is done. */
    function SolutionMove(): (m: Option<string>)
      reads this
      requires Valid()
      ensures m.Some? <==> moveIndex < |puzzleMoves|
      ensures m.Some? ==> m.value == puzzleMoves[moveIndex]
    {
      if moveIndex < |puzzleMoves| then Some(puzzleMoves[moveIndex]) else None
    }

    /** `get_next_opponent_move`: the same move the hint shows, and the cursor
        moves past it; at the end of the line it is None and nothing changes. */
    method NextOpponentMove() returns (m: Option<string>)
      requires Valid()
      modifies this`moveIndex
      ensures Valid()
      ensures m == old(SolutionMove())
      ensures moveIndex == if m.Some? then old(moveIndex) + 1 else old(moveIndex)
    {
      if moveIndex < |puzzleMoves| {
        var uci := puzzleMoves[moveIndex];
        moveIndex := moveIndex + 1;
        return Some(uci);
      }
      return None;
    }
  }
}
