/** `MoveValidator`: the per-piece movement check over a flat 64-entry board
    of two-character piece codes ("wP", "bK", "" for an empty square).

    It follows the movement rules of Article 3 of the FIDE Laws of Chess
    loosely: only the pawn rule looks at the colour of the destination piece,
    the king accepts the null move, pawn diagonals are plain index offsets
    that wrap across the a/h files, en passant needs no move history, and
    there is no castling. The two Java exceptions the code can raise are
    returned as faults. */
module MoveValidator {
  import opened Outcomes
  import opened Squares
  import opened Lines

  /** The loop `for (i = start; i != to; i += step)` of the slider rules:
      true once it reaches `to` over empty squares, false at the first
      occupied square, and an exception when it walks off the board first.
      The square `to` itself is never read. */
  function Scan(board: seq<string>, i: int, to: int, step: int): (r: Result<bool>)
    requires IsBoard(board) && step != 0
    ensures r.Fail? ==> r.fault == IndexOutOfBounds
    decreases if step > 0 then 64 - i else i + 1
  {
    if i == to then Ok(true)
    else if i < 0 || i >= 64 then Fail(IndexOutOfBounds)
    else if board[i] != "" then Ok(false)
    else Scan(board, i + step, to, step)
  }

  /** Java's `/` on `int`, which truncates toward zero. */
  function TruncDiv(a: int, b: int): int
    requires b != 0
  {
    var q := Abs(a) / Abs(b);
    if (a < 0) == (b < 0) then q else -q
  }

  /** The pawn rule. White moves towards lower indices, everything else
      towards higher ones. The en-passant probe reads one square behind the
      destination, which is off the board exactly for a black pawn going a8
      to h8 and a white pawn going h1 to a1 onto an empty square. The code's
      test "row 1 moving down or row 6 moving up" is `StartRow`, since the
      direction follows from the colour letter. */
  function PawnMove(piece: string, from: Square, to: Square, board: seq<string>): (r: Result<bool>)
    requires |piece| >= 2 && IsBoard(board)
    ensures r != Fail(DivisionByZero)
    ensures r.Fail? <==>
              board[to] == "" && if piece[0] == 'w' then from == 63 && to == 56 else from == 0 && to == 7
  {
    var dir := PawnDir(piece);
    if to == from + 8 * dir && board[to] == "" then Ok(true)
    else if from / 8 == StartRow(piece) && to == from + 16 * dir && board[to] == "" && board[from + 8 * dir] == "" then Ok(true)
    else if to == from + 7 * dir || to == from + 9 * dir then
      if Enemy(board[to], piece) then Ok(true)
      else if board[to] == "" then
        var captured := to - 8 * dir;
        if captured < 0 || captured >= 64 then Fail(IndexOutOfBounds)
        else Ok(board[captured] == EnemyPawn(piece))
      else Ok(false)
    else Ok(false)
  }

  /** The rook rule: a scan along the shared row or column. Only the null
      move can run the scan off the board. */
  function RookMove(from: Square, to: Square, board: seq<string>): (r: Result<bool>)
    requires IsBoard(board)
    ensures r.Fail? ==> from == to && r.fault == IndexOutOfBounds
  {
    if from / 8 == to / 8 then
      var step := if from < to then 1 else -1;
      RookScanStays(from, to, board, step);
      Scan(board, from + step, to, step)
    else if from % 8 == to % 8 then
      var step := if from < to then 8 else -8;
      RookScanStays(from, to, board, step);
      Scan(board, from + step, to, step)
    else Ok(false)
  }

  /** The knight rule: the board is not consulted, and a knight's jump
      never runs along a rank, file or diagonal. */
  function KnightMove(from: Square, to: Square): (r: bool)
    ensures r ==> from != to && !OnLine(from, to)
  {
    var rowDiff := Abs(from / 8 - to / 8);
    var colDiff := Abs(from % 8 - to % 8);
    (rowDiff == 2 && colDiff == 1) || (rowDiff == 1 && colDiff == 2)
  }

  /** The bishop rule: the step is the index difference divided by the row
      distance, which is zero for the null move. That division is the only
      way the rule can fail. */
  function BishopMove(from: Square, to: Square, board: seq<string>): (r: Result<bool>)
    requires IsBoard(board)
    ensures r.Fail? <==> from == to
    ensures r.Fail? ==> r.fault == DivisionByZero
  {
    var rowDiff := Abs(from / 8 - to / 8);
    var colDiff := Abs(from % 8 - to % 8);
    if rowDiff == colDiff then
      if rowDiff == 0 then Fail(DivisionByZero)
      else
        var step := TruncDiv(to - from, rowDiff);
        BishopStep(from, to);
        SliderScan(board, from, to);
        Scan(board, from + step, to, step)
    else Ok(false)
  }

  /** The queen rule: the rook rule, and the bishop rule only when the rook
      rule answered false. */
  function QueenMove(from: Square, to: Square, board: seq<string>): (r: Result<bool>)
    requires IsBoard(board)
    ensures r.Fail? ==> from == to
  {
    match RookMove(from, to, board)
    case Ok(true) => Ok(true)
    case Ok(false) => BishopMove(from, to, board)
    case Fail(f) => Fail(f)
  }

  /** The king rule: one step in any direction or none; the board is not
      consulted. */
  function KingMove(from: Square, to: Square): (r: bool)
    ensures r <==> Distance(from, to) <= 1
  {
    var rowDiff := Abs(from / 8 - to / 8);
    var colDiff := Abs(from % 8 - to % 8);
    rowDiff <= 1 && colDiff <= 1
  }

  /** The letter that selects a rule. */
  predicate IsKindLetter(c: char) { c in "PRNBQK" }

  /** `isValidMove`: dispatch on the second character of the piece code.
      Apart from the pawn's corner cases, only a slider asked for the null
      move can raise an exception. */
  function IsValidMove(piece: string, from: string, to: string, board: seq<string>): (r: Result<bool>)
    requires |piece| >= 2 && WellFormed(from) && WellFormed(to) && IsBoard(board)
    ensures !IsKindLetter(piece[1]) ==> r == Ok(false)
    ensures r.Fail? ==>
              || (piece[1] in "RBQ" && from == to)
              || (piece[1] == 'P' && board[NotationToIndex(to)] == ""
                  && if piece[0] == 'w' then from == "h1" && to == "a1" else from == "a8" && to == "h8")
  {
    var f := NotationToIndex(from);
    var t := NotationToIndex(to);
    NotationRoundTrip(from);
    NotationRoundTrip(to);
    CodecCorners();
    SlidersFaultOnlyOnNullMove(f, t, board);
    match piece[1]
    case 'P' => PawnMove(piece, f, t, board)
    case 'R' => RookMove(f, t, board)
    case 'N' => Ok(KnightMove(f, t))
    case 'B' => BishopMove(f, t, board)
    case 'Q' => QueenMove(f, t, board)
    case 'K' => Ok(KingMove(f, t))
    case _ => Ok(false)
  }

  // ---------------------------------------------------------------------
  // Slider scans agree with the row/column reference of module Lines.

  lemma ExactDiv(m: int, d: int)
    requires d > 0
    ensures (m * d) / d == m
  {
    var q, r := (m * d) / d, (m * d) % d;
    assert q * d + r == m * d;
    assert (m - q) * d == r;
    if m - q >= 1 {
      assert false;
    } else if m - q <= -1 {
      assert false;
    }
  }

  /** For a bishop move the truncating division yields the line's step. */
  lemma BishopStep(from: Square, to: Square)
    requires Abs(from / 8 - to / 8) == Abs(from % 8 - to % 8) != 0
    ensures TruncDiv(to - from, Abs(from / 8 - to / 8)) == Step(from, to) != 0
  {
    var d: int := Abs(from / 8 - to / 8);
    var dr, dc := to / 8 - from / 8, to % 8 - from % 8;
    assert to - from == 8 * dr + dc;
    if dr > 0 && dc > 0 {
      DiagonalQuotient(9, d, to - from);
    } else if dr > 0 {
      DiagonalQuotient(7, d, to - from);
    } else if dc > 0 {
      DiagonalQuotient(-7, d, to - from);
    } else {
      DiagonalQuotient(-9, d, to - from);
    }
  }

  /** Dividing `k * d` by `d` with truncation gives back `k`. */
  lemma DiagonalQuotient(k: int, d: int, m: int)
    requires d > 0 && m == k * d
    ensures TruncDiv(m, d) == k
  {
    ExactDiv(Abs(k), d);
    assert Abs(m) == Abs(k) * d;
  }

  /** The scan walks the reference line square by square. */
  lemma {:induction false} ScanAlong(board: seq<string>, a: Square, b: Square, t: int)
    requires IsBoard(board) && OnLine(a, b) && a != b && 0 < t <= Distance(a, b)
    ensures Step(a, b) != 0
    ensures Scan(board, PointOn(a, b, t), b, Step(a, b))
            == Ok(forall u :: t <= u < Distance(a, b) ==> board[PointOn(a, b, u)] == "")
    decreases Distance(a, b) - t
  {
    StepNonZero(a, b);
    if t == Distance(a, b) {
      PointOnEnds(a, b);
    } else {
      PointOnStep(a, b, t);
      PointOnIsBetween(a, b, t);
      ScanAlong(board, a, b, t + 1);
    }
  }

  /** A scan that starts one step away from `a` answers whether the path to
      `b` is clear. */
  lemma SliderScan(board: seq<string>, a: Square, b: Square)
    requires IsBoard(board) && OnLine(a, b) && a != b
    ensures Step(a, b) != 0
    ensures Scan(board, a + Step(a, b), b, Step(a, b)) == Ok(PathClear(board, a, b))
  {
    StepNonZero(a, b);
    PointOnEnds(a, b);
    PointOnStep(a, b, 0);
    ScanAlong(board, a, b, 1);
    PathClearByPoints(board, a, b);
  }

  /** Article 3.3 and 3.5 as implemented: a rook move is valid iff the
      squares share a row or a column and every square strictly between
      them is empty; what stands on the destination does not matter. */
  lemma RookRule(from: Square, to: Square, board: seq<string>)
    requires IsBoard(board) && from != to
    ensures RookMove(from, to, board)
            == Ok((SameRow(from, to) || SameCol(from, to)) && PathClear(board, from, to))
  {
    if SameRow(from, to) || SameCol(from, to) {
      RookStep(from, to);
      SliderScan(board, from, to);
    }
  }

  /** Away from the null move the rook's scan stays on the board. */
  lemma RookScanStays(from: Square, to: Square, board: seq<string>, step: int)
    requires IsBoard(board) && (from / 8 == to / 8 || from % 8 == to % 8)
    requires step == if from / 8 == to / 8 then (if from < to then 1 else -1) else (if from < to then 8 else -8)
    ensures from != to ==> Scan(board, from + step, to, step).Ok?
  {
    if from != to {
      RookStep(from, to);
      SliderScan(board, from, to);
    }
  }

  /** Along a row the rook steps by 1, along a column by 8, towards `to`. */
  lemma RookStep(from: Square, to: Square)
    requires (SameRow(from, to) || SameCol(from, to)) && from != to
    ensures from / 8 == to / 8 <==> SameRow(from, to)
    ensures SameRow(from, to) ==> Step(from, to) == if from < to then 1 else -1
    ensures !SameRow(from, to) ==> Step(from, to) == if from < to then 8 else -8
  {
    SquareIsRowAndCol(from);
    SquareIsRowAndCol(to);
  }

  /** Articles 3.2 and 3.5 as implemented: a bishop move is valid iff the
      squares share a diagonal and every square strictly between them is
      empty. The index step of ±7/±9 never wraps here. */
  lemma BishopRule(from: Square, to: Square, board: seq<string>)
    requires IsBoard(board) && from != to
    ensures BishopMove(from, to, board) == Ok(SameDiagonal(from, to) && PathClear(board, from, to))
  {
    SquareIsRowAndCol(from);
    SquareIsRowAndCol(to);
    if SameDiagonal(from, to) {
      BishopStep(from, to);
      SliderScan(board, from, to);
    }
  }

  /** Article 3.4 as implemented: a queen move is valid iff the rook rule or
      the bishop rule accepts it. */
  lemma QueenRule(from: Square, to: Square, board: seq<string>)
    requires IsBoard(board) && from != to
    ensures QueenMove(from, to, board)
            == Ok(RookMove(from, to, board) == Ok(true) || BishopMove(from, to, board) == Ok(true))
    ensures QueenMove(from, to, board) == Ok(true) <==> OnLine(from, to) && PathClear(board, from, to)
  {
    RookRule(from, to, board);
    BishopRule(from, to, board);
  }

  lemma SlidersFaultOnlyOnNullMove(from: Square, to: Square, board: seq<string>)
    requires IsBoard(board)
    ensures from != to ==> RookMove(from, to, board).Ok? && BishopMove(from, to, board).Ok?
                           && QueenMove(from, to, board).Ok?
  {
    if from != to {
      QueenRule(from, to, board);
    }
  }

  /** The downward scan a rook makes when asked for the null move. */
  lemma {:induction false} ScanDown(board: seq<string>, i: int, a: Square)
    requires IsBoard(board) && -1 <= i < a
    ensures Scan(board, i, a, -1)
            == if exists j :: 0 <= j <= i && board[j] != "" then Ok(false) else Fail(IndexOutOfBounds)
    decreases i + 1
  {
    if i >= 0 && board[i] == "" {
      ScanDown(board, i - 1, a);
      if exists j :: 0 <= j <= i && board[j] != "" {
        var j :| 0 <= j <= i && board[j] != "";
        assert j < i;
      }
    }
  }

  /** What each rule does with the null move `from == to`: the king accepts
      it, the bishop divides by zero, and the rook scans every lower index,
      answering false at an occupied square and running off the board
      otherwise. The queen throws whichever exception its two halves reach
      first: the rook's when every lower square is empty, the bishop's
      otherwise. */
  lemma NullMove(piece: string, a: Square, board: seq<string>)
    requires |piece| >= 2 && IsBoard(board)
    ensures KingMove(a, a) && !KnightMove(a, a)
    ensures PawnMove(piece, a, a, board) == Ok(false)
    ensures BishopMove(a, a, board) == Fail(DivisionByZero)
    ensures RookMove(a, a, board)
            == if exists j :: 0 <= j < a && board[j] != "" then Ok(false) else Fail(IndexOutOfBounds)
    ensures QueenMove(a, a, board)
            == if exists j :: 0 <= j < a && board[j] != "" then Fail(DivisionByZero) else Fail(IndexOutOfBounds)
  {
    ScanDown(board, a - 1, a);
    if exists j :: 0 <= j < a && board[j] != "" {
      var j :| 0 <= j < a && board[j] != "";
      assert 0 <= j <= a - 1;
    }
  }

  // ---------------------------------------------------------------------
  // The pawn rule in rows and columns.

  /** Rows a pawn advances per step: white towards row 0, black towards 7. */
  function PawnDir(piece: string): int
    requires |piece| >= 1
  {
    if piece[0] == 'w' then -1 else 1
  }

  /** The row from which a double step is allowed. */
  function StartRow(piece: string): int
    requires |piece| >= 1
  {
    if piece[0] == 'w' then 6 else 1
  }

  /** A piece whose colour letter differs from the mover's. */
  predicate Enemy(code: string, piece: string)
    requires |piece| >= 1
  {
    code != "" && code[0] != piece[0]
  }

  function EnemyPawn(piece: string): string
    requires |piece| >= 1
  {
    if piece[0] == 'w' then "bP" else "wP"
  }

  /** The single step as the code tests it: the index one row ahead. */
  predicate StepByIndex(piece: string, from: Square, to: Square, board: seq<string>)
    requires |piece| >= 1 && IsBoard(board)
  {
    to == from + 8 * PawnDir(piece) && board[to] == ""
  }

  /** The double step as the code tests it. */
  predicate DoubleByIndex(piece: string, from: Square, to: Square, board: seq<string>)
    requires |piece| >= 1 && IsBoard(board)
  {
    var dir := PawnDir(piece);
    && from / 8 == StartRow(piece)
    && to == from + 16 * dir && board[to] == "" && board[from + 8 * dir] == ""
  }

  /** Capture and en passant at index offset 7 or 9. */
  predicate DiagonalByIndex(piece: string, from: Square, to: Square, board: seq<string>)
    requires |piece| >= 1 && IsBoard(board)
  {
    var dir := PawnDir(piece);
    && (to == from + 7 * dir || to == from + 9 * dir)
    && (|| Enemy(board[to], piece)
        || (board[to] == "" && 0 <= to - 8 * dir < 64 && board[to - 8 * dir] == EnemyPawn(piece)))
  }

  /** The three ways the code accepts a pawn move, in index terms. */
  lemma PawnAcceptsByIndex(piece: string, from: Square, to: Square, board: seq<string>)
    requires |piece| >= 2 && IsBoard(board)
    ensures PawnMove(piece, from, to, board) == Ok(true) <==>
              || StepByIndex(piece, from, to, board)
              || DoubleByIndex(piece, from, to, board)
              || DiagonalByIndex(piece, from, to, board)
  {
  }

  /** The single step is one row forward in the pawn's file. */
  lemma StepInRows(piece: string, from: Square, to: Square, board: seq<string>)
    requires |piece| >= 1 && IsBoard(board)
    ensures StepByIndex(piece, from, to, board) <==>
              SameCol(from, to) && Row(to) == Row(from) + PawnDir(piece) && board[to] == ""
  {
    FileStep(from, to, PawnDir(piece));
  }

  /** The double step is two rows forward in the pawn's file from its start
      row, over an empty square. */
  lemma DoubleInRows(piece: string, from: Square, to: Square, board: seq<string>)
    requires |piece| >= 1 && IsBoard(board)
    ensures DoubleByIndex(piece, from, to, board) <==>
              var dir := PawnDir(piece);
              && SameCol(from, to) && Row(from) == StartRow(piece) && Row(to) == Row(from) + 2 * dir
              && board[to] == "" && board[At(Row(from) + dir, Col(from))] == ""
  {
    var dir := PawnDir(piece);
    FileStep(from, to, 2 * dir);
    if Row(from) == StartRow(piece) {
      var mid := At(Row(from) + dir, Col(from));
      FileStep(from, mid, dir);
    }
  }

  /** Article 3.7 as implemented. A pawn may step one row forward in its file
      onto an empty square; step two rows forward from its start row over an
      empty square onto an empty square; or move to index offset 7 or 9 in
      its direction when that square holds an enemy piece, or is empty with
      an enemy pawn one row behind it (en passant, with no look at the move
      history). */
  lemma PawnRule(piece: string, from: Square, to: Square, board: seq<string>)
    requires |piece| >= 2 && IsBoard(board)
    ensures PawnMove(piece, from, to, board) == Ok(true) <==>
              var dir := PawnDir(piece);
              || (SameCol(from, to) && Row(to) == Row(from) + dir && board[to] == "")
              || (&& SameCol(from, to) && Row(from) == StartRow(piece) && Row(to) == Row(from) + 2 * dir
                  && board[to] == "" && board[At(Row(from) + dir, Col(from))] == "")
              || (&& (to == from + 7 * dir || to == from + 9 * dir)
                  && (|| Enemy(board[to], piece)
                      || (board[to] == "" && 0 <= to - 8 * dir < 64 && board[to - 8 * dir] == EnemyPawn(piece))))
  {
    PawnAcceptsByIndex(piece, from, to, board);
    StepInRows(piece, from, to, board);
    DoubleInRows(piece, from, to, board);
  }

  /** Moving `k` rows along a file is an index offset of `8 * k`. */
  lemma FileStep(from: Square, to: Square, k: int)
    ensures to == from + 8 * k <==> SameCol(from, to) && Row(to) == Row(from) + k
  {
    SquareIsRowAndCol(from);
    SquareIsRowAndCol(to);
    var rf, cf, rt, ct := Row(from), Col(from), Row(to), Col(to);
    if to == from + 8 * k {
      assert 8 * (rt - rf - k) == cf - ct;
      if rt - rf - k >= 1 {
        assert false;
      } else if rt - rf - k <= -1 {
        assert false;
      }
    }
  }

  /** The offsets 7 and 9 are diagonal steps only away from the edge files.
      From the a- or h-file one of them lands on the opposite edge file,
      either in the pawn's own row or two rows ahead. */
  lemma PawnDiagonalGeometry(from: Square, to: Square, dir: int)
    requires dir == 1 || dir == -1
    requires to == from + 7 * dir || to == from + 9 * dir
    ensures 0 < Col(from) < 7 ==> ColDist(from, to) == 1 && Row(to) == Row(from) + dir
    ensures ColDist(from, to) == 1 ==> Row(to) == Row(from) + dir
    ensures ColDist(from, to) != 1 ==>
              && ColDist(from, to) == 7
              && (Row(to) == Row(from) || Row(to) == Row(from) + 2 * dir)
  {
    SquareIsRowAndCol(from);
    SquareIsRowAndCol(to);
  }

  /** The wrap in action: a white pawn on h2 may take a piece on a2, in its
      own rank. */
  lemma PawnCaptureWraps(board: seq<string>)
    requires IsBoard(board) && board[48] == "bN"
    ensures NotationToIndex("a2") == 48
    ensures IsValidMove("wP", "h2", "a2", board) == Ok(true)
  {
  }

  /** En passant with no move history: a white pawn on e5 may take towards
      d6 whenever d6 is empty and a black pawn stands on d5. */
  lemma EnPassantWithoutHistory(board: seq<string>)
    requires IsBoard(board) && board[19] == "" && board[27] == "bP"
    ensures NotationToIndex("d6") == 19 && NotationToIndex("d5") == 27
    ensures IsValidMove("wP", "e5", "d6", board) == Ok(true)
  {
  }

  // ---------------------------------------------------------------------
  // Rules stated over the notation characters.

  function FileOf(s: string): int
    requires |s| >= 1
  {
    s[0] as int - 'a' as int
  }

  function RankOf(s: string): int
    requires |s| >= 2
  {
    s[1] as int - '0' as int
  }

  /** Article 3.6 as implemented: a knight move is valid iff the file and
      rank distances are 1 and 2 in some order, whatever stands on either
      square, a piece of the mover's own colour included. */
  lemma KnightRule(piece: string, from: string, to: string, board: seq<string>)
    requires |piece| >= 2 && piece[1] == 'N' && WellFormed(from) && WellFormed(to) && IsBoard(board)
    ensures IsValidMove(piece, from, to, board)
            == Ok((Abs(FileOf(from) - FileOf(to)), Abs(RankOf(from) - RankOf(to))) in {(1, 2), (2, 1)})
  {
  }

  /** Article 3.8 as implemented: a king move is valid iff neither the file
      nor the rank changes by more than one, so the null move is valid and
      castling is not. */
  lemma KingRule(piece: string, from: string, to: string, board: seq<string>)
    requires |piece| >= 2 && piece[1] == 'K' && WellFormed(from) && WellFormed(to) && IsBoard(board)
    ensures IsValidMove(piece, from, to, board)
            == Ok(Abs(FileOf(from) - FileOf(to)) <= 1 && Abs(RankOf(from) - RankOf(to)) <= 1)
    ensures IsValidMove(piece, from, from, board) == Ok(true)
  {
  }

  /** The slider rules for notation, away from the null move. */
  lemma SliderRules(piece: string, from: string, to: string, board: seq<string>)
    requires |piece| >= 2 && WellFormed(from) && WellFormed(to) && IsBoard(board) && from != to
    ensures var f, t := NotationToIndex(from), NotationToIndex(to);
            && (piece[1] == 'R' ==>
                  IsValidMove(piece, from, to, board) == Ok((SameRow(f, t) || SameCol(f, t)) && PathClear(board, f, t)))
            && (piece[1] == 'B' ==>
                  IsValidMove(piece, from, to, board) == Ok(SameDiagonal(f, t) && PathClear(board, f, t)))
            && (piece[1] == 'Q' ==>
                  IsValidMove(piece, from, to, board) == Ok(OnLine(f, t) && PathClear(board, f, t)))
  {
    var f, t := NotationToIndex(from), NotationToIndex(to);
    NotationRoundTrip(from);
    NotationRoundTrip(to);
    RookRule(f, t, board);
    BishopRule(f, t, board);
    QueenRule(f, t, board);
  }

  // ---------------------------------------------------------------------
  // Only the pawn rule reads the destination square.

  lemma {:induction false} ScanIgnoresTarget(board: seq<string>, i: int, to: Square, step: int, x: string)
    requires IsBoard(board) && step != 0
    ensures Scan(board[to := x], i, to, step) == Scan(board, i, to, step)
    decreases if step > 0 then 64 - i else i + 1
  {
    if i != to && 0 <= i < 64 && board[i] == "" {
      ScanIgnoresTarget(board, i + step, to, step, x);
    }
  }

  /** The rook rule never reads the destination square. */
  lemma RookIgnoresTarget(from: Square, to: Square, board: seq<string>, x: string)
    requires IsBoard(board)
    ensures RookMove(from, to, board[to := x]) == RookMove(from, to, board)
  {
    var step := if from / 8 == to / 8 then (if from < to then 1 else -1) else (if from < to then 8 else -8);
    ScanIgnoresTarget(board, from + step, to, step, x);
  }

  /** The bishop rule never reads the destination square. */
  lemma BishopIgnoresTarget(from: Square, to: Square, board: seq<string>, x: string)
    requires IsBoard(board)
    ensures BishopMove(from, to, board[to := x]) == BishopMove(from, to, board)
  {
    var rowDiff := Abs(from / 8 - to / 8);
    if rowDiff == Abs(from % 8 - to % 8) != 0 {
      var step := TruncDiv(to - from, rowDiff);
      BishopStep(from, to);
      ScanIgnoresTarget(board, from + step, to, step, x);
    }
  }

  /** Whatever is put on the destination square, a non-pawn rule gives the
      same answer: only pawns distinguish captures of either colour from
      moves onto an empty square. */
  lemma OnlyPawnsReadTheDestination(piece: string, from: string, to: string, board: seq<string>, x: string)
    requires |piece| >= 2 && piece[1] != 'P' && WellFormed(from) && WellFormed(to) && IsBoard(board)
    ensures IsValidMove(piece, from, to, board[NotationToIndex(to) := x]) == IsValidMove(piece, from, to, board)
  {
    var f, t := NotationToIndex(from), NotationToIndex(to);
    RookIgnoresTarget(f, t, board, x);
    BishopIgnoresTarget(f, t, board, x);
  }
}
