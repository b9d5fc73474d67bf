/** Concrete consequences of the model on the starting position: the
    behaviours a reader can check by hand against a chess board. */
module Scenarios {
  import opened Outcomes
  import opened Squares
  import opened MoveValidator
  import opened LobbyModel
  import opened MoveParser

  /** A white pawn on its starting rank may advance two squares. */
  lemma PawnDoubleStep()
    ensures IsValidMove("wP", "e2", "e4", InitialBoard) == Ok(true)
  {
    InitialRows();
  }

  /** A rook cannot jump over its own pawn. */
  lemma RookBlocked()
    ensures IsValidMove("wR", "a1", "a3", InitialBoard) == Ok(false)
  {
    InitialRows();
  }

  /** The white queen is the only "wQ" on the board, on d1. */
  lemma WhiteQueenFirstAt59()
    ensures InitialBoard[59] == "wQ"
    ensures forall j :: 0 <= j < 59 ==> InitialBoard[j] != "wQ"
  {
    InitialRows();
  }

  /** The first white knight in index order stands on b1. */
  lemma WhiteKnightFirstAt57()
    ensures InitialBoard[57] == "wN"
    ensures forall j :: 0 <= j < 57 ==> InitialBoard[j] != "wN"
  {
    InitialRows();
  }

  /** Asking the queen to move onto its own square divides by zero in the
      diagonal step computation: the rank/file path finds nothing clear
      and the diagonal branch is reached with a zero distance. */
  lemma QueenNullMove()
    ensures IsValidMove("wQ", "d1", "d1", InitialBoard) == Fail(DivisionByZero)
  {
    InitialRows();
    assert NotationToIndex("d1") == 59;
    assert Scan(InitialBoard, 58, 59, -1) == Ok(false);
  }

  /** Hence "queen to d1" for white on the starting position ends in an
      exception rather than in "no piece can move there". */
  lemma QueenToD1Throws()
    ensures FindSourceSquare("QUEEN", "d1", true, NewLobby()) == Fail(DivisionByZero)
  {
    assert PieceCode("QUEEN", true) == "wQ";
    WhiteQueenFirstAt59();
    QueenNullMove();
    var v := Verdicts("wQ", "d1", InitialBoard);
    assert IndexToNotation(59) == "d1";
    FirstHolderDecides("wQ", InitialBoard, v, 59);
  }

  /** The b1 knight reaches c3. */
  lemma KnightFromB1()
    ensures IsValidMove("wN", "b1", "c3", InitialBoard) == Ok(true)
  {
    KnightRule("wN", "b1", "c3", InitialBoard);
  }

  /** "knight to c3" for white resolves to the b1 knight. */
  lemma KnightToC3()
    ensures FindSourceSquare("KNIGHT", "c3", true, NewLobby()) == Ok(Some("b1"))
  {
    assert PieceCode("KNIGHT", true) == "wN";
    WhiteKnightFirstAt57();
    var v := Verdicts("wN", "c3", InitialBoard);
    assert IndexToNotation(57) == "b1";
    KnightFromB1();
    FirstHolderDecides("wN", InitialBoard, v, 57);
  }
}
