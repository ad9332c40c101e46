/** The click-to-square mapping of main.py: a left click at pixel (x, y) on the
    640x640 board picks a square; with the board flipped both file and row are
    mirrored.  The board is drawn with square `s` at column `s % 8` and row
    `7 - s / 8` (src/ui.py, `DisplayBoard.draw`), 80 pixels per square. */
module BoardClicks {
  import opened Wrappers

  const SquarePixels: int := 80
  const BoardPixels: int := 640

  /** Mirrors a column or row index of the 8x8 grid. */
  function Mirror(v: int): (r: int)
    ensures 0 <= v <= 7 <==> 0 <= r <= 7
  {
    7 - v
  }

  lemma MirrorInvolution(v: int)
    ensures Mirror(Mirror(v)) == v
  {
  }

  /** The square a click at (x, y) selects, or None when the click is off the
      board.  Python's `//` is floor division; Dafny's `/` agrees with it for
      the positive divisor used here. */
  function ClickedSquare(x: int, y: int, flipped: bool): (r: Option<int>)
    ensures r.Some? <==> 0 <= x < BoardPixels && 0 <= y < BoardPixels
    ensures r.Some? ==> 0 <= r.value < 64
  {
    if x < BoardPixels then
      var c := x / SquarePixels;
      var row := y / SquarePixels;
      var c' := if flipped then Mirror(c) else c;
      var row' := if flipped then Mirror(row) else row;
      if 0 <= c' <= 7 && 0 <= row' <= 7 then Some((7 - row') * 8 + c') else None
    else None
  }

  /** On a flipped board a click selects the square rotated by half a turn. */
  lemma FlippedClickRotates(x: int, y: int)
    ensures ClickedSquare(x, y, true) ==
              if ClickedSquare(x, y, false).Some? then Some(63 - ClickedSquare(x, y, false).value) else None
  {
  }

  /** Clicking anywhere inside the 80x80 cell where square `s` is drawn selects `s`. */
  lemma ClickOnDrawnSquare(s: int, dx: int, dy: int)
    requires 0 <= s < 64 && 0 <= dx < SquarePixels && 0 <= dy < SquarePixels
    ensures ClickedSquare((s % 8) * SquarePixels + dx, (7 - s / 8) * SquarePixels + dy, false) == Some(s)
  {
    var col, row := s % 8, 7 - s / 8;
    assert (col * SquarePixels + dx) / SquarePixels == col;
    assert (row * SquarePixels + dy) / SquarePixels == row;
  }
}
