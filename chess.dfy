/** The board representation shared by the helpers of main.py: sixty-four
    squares, each empty or holding a piece of some kind and colour.  Square
    `rank * 8 + file` follows python-chess (a1 = 0, h1 = 7, a8 = 56, h8 = 63). */
module Chess {
  import opened Wrappers

  datatype Color = White | Black

  datatype Kind = Pawn | Knight | Bishop | Rook | Queen | King

  datatype Piece = Piece(kind: Kind, color: Color)

  type Board = b: seq<Option<Piece>> | |b| == 64 witness seq(64, _ => None)
}
