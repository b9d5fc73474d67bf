/** `Lobby`: the board a game starts from and the lobby that holds the
    current board. The lobby's identifier and its logging are not part of
    the model. */
module LobbyModel {
  import opened Squares

  /** The opening position, black at the top (row 0) and white at the
      bottom (row 7). */
  const InitialBoard: seq<string> :=
      ["bR", "bN", "bB", "bQ", "bK", "bB", "bN", "bR"]
    + ["bP", "bP", "bP", "bP", "bP", "bP", "bP", "bP"]
    + ["", "", "", "", "", "", "", ""]
    + ["", "", "", "", "", "", "", ""]
    + ["", "", "", "", "", "", "", ""]
    + ["", "", "", "", "", "", "", ""]
    + ["wP", "wP", "wP", "wP", "wP", "wP", "wP", "wP"]
    + ["wR", "wN", "wB", "wQ", "wK", "wB", "wN", "wR"]

  /** A lobby as far as the board logic sees it: the current board. */
  datatype Lobby = Lobby(board: seq<string>)

  /** The constructor: a fresh copy of the opening position. */
  function NewLobby(): (l: Lobby)
    ensures IsBoard(l.board)
  {
    Lobby(InitialBoard)
  }

  function GetBoardState(l: Lobby): seq<string>
  {
    l.board
  }

  /** Replaces the whole board. */
  function SetBoardState(l: Lobby, board: seq<string>): (l': Lobby)
    ensures GetBoardState(l') == board
  {
    l.(board := board)
  }

  // ---------------------------------------------------------------------
  // The opening position described square by square.

  /** The back-rank piece letters from the a-file to the h-file. */
  const BackRank: string := "RNBQKBNR"

  /** What the standard opening position holds on a square, derived from its
      row and column. */
  function StartingPiece(s: Square): (code: string)
  {
    var r, c := Row(s), Col(s);
    if r == 0 then ['b', BackRank[c]]
    else if r == 1 then "bP"
    else if r == 6 then "wP"
    else if r == 7 then ['w', BackRank[c]]
    else ""
  }

  /** Row 0 holds black's back rank, row 1 black's pawns, rows 2 to 5
      nothing, row 6 white's pawns and row 7 white's back rank, the same
      pieces in the same files as black's. */
  lemma InitialRows()
    ensures IsBoard(InitialBoard)
    ensures forall s :: 0 <= s < 8 ==> InitialBoard[s] == ['b', BackRank[s]]
    ensures forall s :: 8 <= s < 16 ==> InitialBoard[s] == "bP"
    ensures forall s :: 16 <= s < 48 ==> InitialBoard[s] == ""
    ensures forall s :: 48 <= s < 56 ==> InitialBoard[s] == "wP"
    ensures forall s :: 56 <= s < 64 ==> InitialBoard[s] == ['w', BackRank[s - 56]]
  {
  }

  /** The literal board is the standard opening position. */
  lemma InitialBoardIsStandard()
    ensures IsBoard(InitialBoard)
    ensures forall s: Square :: InitialBoard[s] == StartingPiece(s)
  {
    InitialRows();
  }

  /** Each side starts with exactly one king, black's on e8 and white's
      on e1. */
  lemma OneKingEach()
    ensures forall s: Square :: InitialBoard[s] == "bK" <==> s == 4
    ensures forall s: Square :: InitialBoard[s] == "wK" <==> s == 60
    ensures IndexToNotation(4) == "e8" && IndexToNotation(60) == "e1"
  {
    InitialBoardIsStandard();
    forall s: Square
      ensures InitialBoard[s] == "bK" <==> s == 4
      ensures InitialBoard[s] == "wK" <==> s == 60
    {
      var code := StartingPiece(s);
      if code == "bK" || code == "wK" {
        assert code[1] == 'K' == BackRank[Col(s)];
        assert Col(s) == 4;
      }
    }
  }

  /** A new lobby starts from the opening position, entry by entry. */
  lemma NewLobbyIsInitial()
    ensures forall s: Square :: GetBoardState(NewLobby())[s] == StartingPiece(s)
  {
    InitialBoardIsStandard();
  }

  /** Reading the board and setting it back leaves the lobby as it was. */
  lemma SetWhatWasRead(l: Lobby)
    ensures SetBoardState(l, GetBoardState(l)) == l
  {
  }

  /** Setting the board replaces it wholesale: a later set wins, and the
      lobby keeps nothing of the earlier board. */
  lemma SetReplacesBoard(l: Lobby, b1: seq<string>, b2: seq<string>)
    ensures SetBoardState(SetBoardState(l, b1), b2) == SetBoardState(l, b2)
    ensures SetBoardState(l, b1) == SetBoardState(NewLobby(), b1)
  {
  }
}
