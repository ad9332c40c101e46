/** Which sound main.py asks for when something happens on the board
    (`realizar_jogada` and `tocar_som_acao`). */
module Sounds {
  import opened Wrappers
  import opened Chess

  /** The actions `tocar_som_acao` plays a sound for. */
  const Actions: set<string> := {"move", "capture", "menu", "undo", "game_over", "defeat", "hint"}

  /** `realizar_jogada`: a move onto an occupied square is a capture. */
  function MoveAction(targetOccupied: bool): (action: string)
    ensures action in Actions
    ensures action == "capture" <==> targetOccupied
  {
    if targetOccupied then "capture" else "move"
  }

  /** `tocar_som_acao`: the sound requested for `action`, where `moving` is the
      piece on the origin square of the move (None without a move or on an
      empty square). */
  function ActionSound(action: string, moving: Option<Piece>): (r: Option<string>)
    ensures r.None? <==> action !in Actions
    ensures action == "move" ==>
              r == Some(if moving.Some? && moving.value.kind == Pawn then "pawn_move"
                        else if moving.Some? && moving.value.kind == King then "king_move"
                        else "move")
    ensures action != "move" && r.Some? ==> r.value == action
  {
    if action == "move" then
      if moving.Some? && moving.value.kind == Pawn then Some("pawn_move")
      else if moving.Some? && moving.value.kind == King then Some("king_move")
      else Some("move")
    else if action == "capture" then Some("capture")
    else if action in ["menu", "undo", "game_over", "defeat", "hint"] then Some(action)
    else None
  }

  /** Only a plain move's sound depends on the piece that moves. */
  lemma SoundIgnoresPieceExceptOnMove(action: string, p: Option<Piece>, q: Option<Piece>)
    requires action != "move"
    ensures ActionSound(action, p) == ActionSound(action, q)
  {
  }

  /** Every move of a piece makes a sound: a capture sounds as a capture, a
      quiet move as a move of that piece. */
  lemma MoveAlwaysSounds(targetOccupied: bool, moving: Option<Piece>)
    ensures ActionSound(MoveAction(targetOccupied), moving).Some?
    ensures ActionSound(MoveAction(targetOccupied), moving) == Some("capture") <==> targetOccupied
  {
  }
}
