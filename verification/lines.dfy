/** Straight lines on the board in row/column coordinates. This is the
    reference against which the validator's index-stepping scans are proved:
    it speaks of rows and columns only, so a path defined here cannot wrap
    from the h-file to the a-file. */
module Lines {
  import opened Squares

  function Abs(x: int): nat { if x < 0 then -x else x }

  function Sign(x: int): int { if x > 0 then 1 else if x < 0 then -1 else 0 }

  /** `t * d` for a direction `d` in -1..1, written without multiplication. */
  function Scale(t: int, d: int): int { if d > 0 then t else if d < 0 then -t else 0 }

  function RowDist(a: Square, b: Square): nat { Abs(Row(a) - Row(b)) }

  function ColDist(a: Square, b: Square): nat { Abs(Col(a) - Col(b)) }

  /** The number of king steps between two squares. */
  function Distance(a: Square, b: Square): nat
  {
    if RowDist(a, b) < ColDist(a, b) then ColDist(a, b) else RowDist(a, b)
  }

  predicate SameRow(a: Square, b: Square) { Row(a) == Row(b) }

  predicate SameCol(a: Square, b: Square) { Col(a) == Col(b) }

  predicate SameDiagonal(a: Square, b: Square) { RowDist(a, b) == ColDist(a, b) }

  /** A rank, file or diagonal runs through both squares. */
  predicate OnLine(a: Square, b: Square)
  {
    SameRow(a, b) || SameCol(a, b) || SameDiagonal(a, b)
  }

  /** Row and column direction from `a` towards `b`. */
  function DRow(a: Square, b: Square): int { Sign(Row(b) - Row(a)) }

  function DCol(a: Square, b: Square): int { Sign(Col(b) - Col(a)) }

  /** The index difference between neighbouring squares of the line. */
  function Step(a: Square, b: Square): int { 8 * DRow(a, b) + DCol(a, b) }

  /** The square `t` king steps from `a` along the line to `b`. */
  function PointOn(a: Square, b: Square, t: int): (s: Square)
    requires OnLine(a, b) && 0 <= t <= Distance(a, b)
    ensures Row(s) == Row(a) + Scale(t, DRow(a, b))
    ensures Col(s) == Col(a) + Scale(t, DCol(a, b))
  {
    At(Row(a) + Scale(t, DRow(a, b)), Col(a) + Scale(t, DCol(a, b)))
  }

  /** `s` lies on the line from `a` to `b`, strictly inside the segment. */
  predicate Between(a: Square, b: Square, s: Square)
  {
    && OnLine(a, b)
    && 0 < Distance(a, s) < Distance(a, b)
    && Row(s) == Row(a) + Scale(Distance(a, s), DRow(a, b))
    && Col(s) == Col(a) + Scale(Distance(a, s), DCol(a, b))
  }

  /** Every square strictly between `a` and `b` is empty. */
  predicate PathClear(board: seq<string>, a: Square, b: Square)
    requires IsBoard(board)
  {
    forall s: Square :: Between(a, b, s) ==> board[s] == ""
  }

  lemma StepNonZero(a: Square, b: Square)
    requires OnLine(a, b) && a != b
    ensures Step(a, b) != 0 && Distance(a, b) > 0
  {
    SquareIsRowAndCol(a);
    SquareIsRowAndCol(b);
  }

  /** The walk starts at `a` and ends at `b`. */
  lemma PointOnEnds(a: Square, b: Square)
    requires OnLine(a, b)
    ensures PointOn(a, b, 0) == a
    ensures PointOn(a, b, Distance(a, b)) == b
  {
    SquareIsRowAndCol(a);
    SquareIsRowAndCol(b);
    var e := PointOn(a, b, Distance(a, b));
    assert Row(e) == Row(b) && Col(e) == Col(b);
    SquareIsRowAndCol(e);
  }

  /** One king step along the line is one `Step` in index terms. */
  lemma PointOnStep(a: Square, b: Square, t: int)
    requires OnLine(a, b) && 0 <= t < Distance(a, b)
    ensures PointOn(a, b, t + 1) == PointOn(a, b, t) + Step(a, b)
  {
    var p, q := PointOn(a, b, t), PointOn(a, b, t + 1);
    SquareIsRowAndCol(p);
    SquareIsRowAndCol(q);
  }

  /** The squares strictly between `a` and `b` are exactly the points of the
      walk with 0 < t < Distance(a, b). */
  lemma BetweenIsPointOn(a: Square, b: Square, s: Square)
    requires OnLine(a, b) && a != b
    ensures Between(a, b, s) <==>
              0 < Distance(a, s) < Distance(a, b) && s == PointOn(a, b, Distance(a, s))
  {
    if 0 < Distance(a, s) < Distance(a, b) {
      var p := PointOn(a, b, Distance(a, s));
      SquareIsRowAndCol(p);
      SquareIsRowAndCol(s);
    }
  }

  lemma PointOnIsBetween(a: Square, b: Square, t: int)
    requires OnLine(a, b) && 0 < t < Distance(a, b)
    ensures Distance(a, PointOn(a, b, t)) == t
    ensures Between(a, b, PointOn(a, b, t))
  {
  }

  /** `PathClear` restated over the steps of the walk. */
  lemma PathClearByPoints(board: seq<string>, a: Square, b: Square)
    requires IsBoard(board) && OnLine(a, b) && a != b
    ensures PathClear(board, a, b) <==>
              forall t :: 0 < t < Distance(a, b) ==> board[PointOn(a, b, t)] == ""
  {
    if PathClear(board, a, b) {
      forall t | 0 < t < Distance(a, b)
        ensures board[PointOn(a, b, t)] == ""
      {
        PointOnIsBetween(a, b, t);
      }
    }
    if forall t :: 0 < t < Distance(a, b) ==> board[PointOn(a, b, t)] == "" {
      forall s: Square | Between(a, b, s)
        ensures board[s] == ""
      {
        BetweenIsPointOn(a, b, s);
      }
    }
  }
}
