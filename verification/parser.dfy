/** `MoveParser`: natural-language commands such as "Knight to c3". The
    command names a piece kind and a target square; the source square is
    the first square in index order that holds the mover's piece of that
    kind and from which the move validator accepts the move. */
module MoveParser {
  import opened Outcomes
  import opened Squares
  import opened Text
  import opened MoveValidator
  import opened LobbyModel

  /** Piece names as they appear in commands, with their code letters. */
  const PieceNames: map<string, string> :=
    map["KNIGHT" := "N", "BISHOP" := "B", "ROOK" := "R", "QUEEN" := "Q", "KING" := "K", "PAWN" := "P"]

  /** The parsed move; `promotion` is `None` for Java's `null`. */
  datatype Move = Move(from: string, to: string, promotion: Option<string>)

  /** `isNaturalLanguageCommand`: the trimmed, upper-cased message contains
      " TO " and the name of a piece. */
  predicate IsNaturalLanguageCommand(message: string)
    ensures IsNaturalLanguageCommand(message) <==> DescribesMove(Trim(Upper(message)))
  {
    var upper := Trim(Upper(message));
    ContainsMeansOccurs(upper);
    Contains(upper, " TO ") && NamesPiece(upper)
  }

  /** `upper` contains the name of some piece. */
  predicate NamesPiece(upper: string)
  {
    exists name | name in PieceNames :: Contains(upper, name)
  }

  /** " TO " and some piece name occur somewhere in `upper`. */
  ghost predicate DescribesMove(upper: string)
  {
    && (exists i :: OccursAt(upper, " TO ", i))
    && (exists name, i :: name in PieceNames && OccursAt(upper, name, i))
  }

  /** The two `contains` tests hold exactly when the occurrences exist. */
  lemma ContainsMeansOccurs(upper: string)
    ensures Contains(upper, " TO ") && NamesPiece(upper) <==> DescribesMove(upper)
  {
    ContainsIff(upper, " TO ");
    forall name | name in PieceNames
      ensures Contains(upper, name) <==> exists i :: OccursAt(upper, name, i)
    {
      ContainsIff(upper, name);
    }
  }

  /** Recognition does not depend on the case of the message. */
  lemma CommandIgnoresCase(message: string)
    ensures IsNaturalLanguageCommand(Upper(message)) == IsNaturalLanguageCommand(message)
  {
    UpperIsUpper(message);
  }

  // ---------------------------------------------------------------------
  // The pattern (KNIGHT|BISHOP|ROOK|QUEEN|KING|PAWN)\s+TO\s+([A-H][1-8]).

  /** The characters `\s` matches. */
  predicate IsSpace(c: char)
  {
    c == ' ' || c == '\t' || c == '\n' || c == 11 as char || c == 12 as char || c == '\r'
  }

  /** Every character in `s[lo..hi]` is a space. */
  ghost predicate AllSpace(s: string, lo: int, hi: int)
  {
    0 <= lo <= hi <= |s| && forall k :: lo <= k < hi ==> IsSpace(s[k])
  }

  /** After the name: `a` spaces, "TO", `b` spaces and the captured square,
      a file letter A-H followed by a rank digit 1-8. */
  ghost predicate TailWith(s: string, q: int, a: int, b: int, square: string)
  {
    && a >= 1 && b >= 1
    && AllSpace(s, q, q + a)
    && OccursAt(s, "TO", q + a)
    && AllSpace(s, q + a + 2, q + a + 2 + b)
    && OccursAt(s, square, q + a + 2 + b)
    && |square| == 2 && 'A' <= square[0] <= 'H' && '1' <= square[1] <= '8'
  }

  /** The pattern matches at `p` with `a` spaces before "TO" and `b` after,
      naming the piece `name` and capturing `square`. */
  ghost predicate PatternWith(s: string, p: int, name: string, a: int, b: int, square: string)
  {
    && name in PieceNames
    && OccursAt(s, name, p)
    && TailWith(s, p + |name|, a, b, square)
  }

  /** The pattern matches at `p`, for some runs of spaces. */
  ghost predicate PatternAt(s: string, p: int, name: string, square: string)
  {
    exists a, b :: PatternWith(s, p, name, a, b, square)
  }

  /** The end of the run of spaces starting at `p`. */
  function SkipSpaces(s: string, p: nat): (q: nat)
    requires p <= |s|
    ensures p <= q <= |s|
    ensures forall k :: p <= k < q ==> IsSpace(s[k])
    ensures q < |s| ==> !IsSpace(s[q])
    decreases |s| - p
  {
    if p < |s| && IsSpace(s[p]) then SkipSpaces(s, p + 1) else p
  }

  /** The alternatives of the pattern, tried in this order. */
  const Alternatives: seq<string> := ["KNIGHT", "BISHOP", "ROOK", "QUEEN", "KING", "PAWN"]

  /** The first alternative from index `k` on that occurs at `p`. */
  function NameFrom(s: string, p: nat, k: nat): (r: Option<string>)
    requires k <= |Alternatives|
    ensures r.Some? ==> r.value in PieceNames && OccursAt(s, r.value, p)
    ensures r.None? ==> forall j :: k <= j < |Alternatives| ==> !OccursAt(s, Alternatives[j], p)
    decreases |Alternatives| - k
  {
    if k == |Alternatives| then None
    else if OccursAt(s, Alternatives[k], p) then AlternativesAreNames(); Some(Alternatives[k])
    else NameFrom(s, p, k + 1)
  }

  lemma AlternativesAreNames()
    ensures forall name :: name in PieceNames <==> name in Alternatives
  {
  }

  /** No piece name is a prefix of another, so at most one occurs at `p`. */
  lemma NamesArePrefixFree(s: string, p: int, n1: string, n2: string)
    requires n1 in PieceNames && n2 in PieceNames
    requires OccursAt(s, n1, p) && OccursAt(s, n2, p)
    ensures n1 == n2
  {
    assert n1[0] == s[p..p + |n1|][0] == s[p] == s[p..p + |n2|][0] == n2[0];
    assert n1[1] == s[p..p + |n1|][1] == s[p + 1] == s[p..p + |n2|][1] == n2[1];
  }

  /** Wherever a piece name occurs, it is the alternative found. */
  lemma NameFromIs(s: string, p: nat, name: string)
    requires name in PieceNames && OccursAt(s, name, p)
    ensures NameFrom(s, p, 0) == Some(name)
  {
    AlternativesAreNames();
    var j :| 0 <= j < |Alternatives| && Alternatives[j] == name;
    var found := NameFrom(s, p, 0);
    NamesArePrefixFree(s, p, found.value, name);
  }

  /** The rest of the pattern tried at `q`, just after the name: the longest
      run of spaces, "TO", the longest run of spaces and the square. Greedy
      runs lose nothing, as a space never starts "TO" or a square. */
  function TailAt(s: string, q: nat): (r: Option<string>)
    requires q <= |s|
  {
    var q1 := SkipSpaces(s, q);
    if q1 == q || !OccursAt(s, "TO", q1) then None
    else
      var q2 := SkipSpaces(s, q1 + 2);
      if q2 == q1 + 2 || q2 + 2 > |s| || !('A' <= s[q2] <= 'H') || !('1' <= s[q2 + 1] <= '8') then None
      else Some(s[q2..q2 + 2])
  }

  /** The pattern tried at `p`: the first alternative that occurs there,
      then the rest of the pattern. */
  function MatchAt(s: string, p: nat): (r: Option<(string, string)>)
    requires p <= |s|
  {
    match NameFrom(s, p, 0)
    case None => None
    case Some(name) =>
      match TailAt(s, p + |name|)
      case None => None
      case Some(square) => Some((name, square))
  }

  /** A match consists of the name found and the rest of the pattern after
      it. */
  lemma MatchAtParts(s: string, p: nat, name: string, square: string)
    requires p <= |s|
    ensures MatchAt(s, p) == Some((name, square)) <==>
              NameFrom(s, p, 0) == Some(name) && TailAt(s, p + |name|) == Some(square)
  {
  }

  /** What `TailAt` reports is the rest of the pattern, with runs of `a`
      and `b` spaces. */
  lemma TailAtSound(s: string, q: nat, square: string) returns (a: int, b: int)
    requires q <= |s| && TailAt(s, q) == Some(square)
    ensures TailWith(s, q, a, b, square)
  {
    var q1 := SkipSpaces(s, q);
    var q2 := SkipSpaces(s, q1 + 2);
    a, b := q1 - q, q2 - (q1 + 2);
  }

  /** Every match `MatchAt` reports is one the pattern describes. */
  lemma MatchAtSound(s: string, p: nat, name: string, square: string)
    requires p <= |s| && MatchAt(s, p) == Some((name, square))
    ensures PatternAt(s, p, name, square)
  {
    MatchAtParts(s, p, name, square);
    PatternOfParts(s, p, name, square);
  }

  /** A name found at `p` followed by a tail found after it is a match of
      the pattern. */
  lemma PatternOfParts(s: string, p: nat, name: string, square: string)
    requires p <= |s| && NameFrom(s, p, 0) == Some(name) && TailAt(s, p + |name|) == Some(square)
    ensures PatternAt(s, p, name, square)
  {
    var a, b := TailAtSound(s, p + |name|, square);
    assert PatternWith(s, p, name, a, b, square);
  }

  /** The rest of the pattern, as the pattern describes it, is what
      `TailAt` reports. */
  lemma TailAtComplete(s: string, q: nat, a: int, b: int, square: string)
    requires q <= |s| && TailWith(s, q, a, b, square)
    ensures TailAt(s, q) == Some(square)
  {
    var q1 := q + a;
    assert s[q1] == 'T' by {
      assert s[q1..q1 + 2] == "TO";
    }
    SpaceRunEnds(s, q, a);
    var q2 := q1 + 2 + b;
    assert s[q2] == square[0] && s[q2 + 1] == square[1] by {
      assert s[q2..q2 + 2] == square;
    }
    SpaceRunEnds(s, q1 + 2, b);
  }

  /** Every match the pattern describes is the one `MatchAt` reports. */
  lemma MatchAtComplete(s: string, p: nat, name: string, a: int, b: int, square: string)
    requires p <= |s| && PatternWith(s, p, name, a, b, square)
    ensures MatchAt(s, p) == Some((name, square))
  {
    NameFromIs(s, p, name);
    TailAtComplete(s, p + |name|, a, b, square);
    MatchOfParts(s, p, name, square);
  }

  /** A name found at `p` and a tail found after it make a match. */
  lemma MatchOfParts(s: string, p: nat, name: string, square: string)
    requires p <= |s| && NameFrom(s, p, 0) == Some(name) && TailAt(s, p + |name|) == Some(square)
    ensures MatchAt(s, p) == Some((name, square))
  {
  }

  /** `MatchAt` finds exactly the matches the pattern describes. */
  lemma MatchAtIsPattern(s: string, p: nat, name: string, square: string)
    requires p <= |s|
    ensures MatchAt(s, p) == Some((name, square)) <==> PatternAt(s, p, name, square)
  {
    if MatchAt(s, p) == Some((name, square)) {
      MatchAtSound(s, p, name, square);
    }
    if PatternAt(s, p, name, square) {
      var a, b :| PatternWith(s, p, name, a, b, square);
      MatchAtComplete(s, p, name, a, b, square);
    }
  }

  /** A run of spaces that is followed by a non-space is the longest one. */
  lemma SpaceRunEnds(s: string, q: nat, a: nat)
    requires AllSpace(s, q, q + a) && q + a < |s| && !IsSpace(s[q + a])
    ensures SkipSpaces(s, q) == q + a
    decreases a
  {
    if a > 0 {
      SpaceRunEnds(s, q + 1, a - 1);
    }
  }

  /** A match names a piece, and its square is in notation once lower-cased. */
  lemma MatchShape(s: string, p: nat, name: string, square: string)
    requires p <= |s| && MatchAt(s, p) == Some((name, square))
    ensures name in PieceNames && WellFormed(Lower(square))
  {
    MatchAtParts(s, p, name, square);
    var a, b := TailAtSound(s, p + |name|, square);
    LowerSquare(square);
  }

  /** A captured square, lower-cased, is in notation. */
  lemma LowerSquare(square: string)
    requires |square| == 2 && 'A' <= square[0] <= 'H' && '1' <= square[1] <= '8'
    ensures WellFormed(Lower(square))
  {
  }

  /** Where a match starts, and what it captured. */
  datatype Match = Match(start: nat, name: string, square: string)

  /** `Matcher.find`: the leftmost position from `p` on where the pattern
      matches. */
  function FindMatch(s: string, p: nat): (r: Option<Match>)
    requires p <= |s|
    ensures r.Some? ==>
              && p <= r.value.start <= |s|
              && MatchAt(s, r.value.start) == Some((r.value.name, r.value.square))
              && forall k :: p <= k < r.value.start ==> MatchAt(s, k).None?
    ensures r.None? ==> forall k :: p <= k <= |s| ==> MatchAt(s, k).None?
    ensures r.Some? ==> r.value.name in PieceNames && WellFormed(Lower(r.value.square))
    decreases |s| - p
  {
    match MatchAt(s, p)
    case Some((name, square)) =>
      MatchShape(s, p, name, square);
      Some(Match(p, name, square))
    case None => if p == |s| then None else FindMatch(s, p + 1)
  }

  /** The match found is the leftmost one in the sense of the pattern, and
      none is found only when the pattern occurs nowhere. */
  lemma FindMatchIsLeftmost(s: string)
    ensures FindMatch(s, 0).Some? ==>
              var m := FindMatch(s, 0).value;
              && PatternAt(s, m.start, m.name, m.square)
              && forall k, name, square :: 0 <= k < m.start ==> !PatternAt(s, k, name, square)
    ensures FindMatch(s, 0).None? <==>
              forall k, name, square :: 0 <= k <= |s| ==> !PatternAt(s, k, name, square)
  {
    forall k, name, square | 0 <= k <= |s|
      ensures PatternAt(s, k, name, square) <==> MatchAt(s, k) == Some((name, square))
    {
      MatchAtIsPattern(s, k, name, square);
    }
    if FindMatch(s, 0).None? {
    } else {
      var m := FindMatch(s, 0).value;
      assert MatchAt(s, m.start) == Some((m.name, m.square));
    }
  }

  // ---------------------------------------------------------------------
  // Resolving the source square.

  /** The piece code the mover's named piece has on the board. */
  function PieceCode(name: string, isWhite: bool): (code: string)
    requires name in PieceNames
    ensures |code| == 2 && IsKindLetter(code[1])
    ensures code[1] == if name == "KNIGHT" then 'N' else name[0]
    ensures code[0] == (if isWhite then 'w' else 'b')
  {
    [if isWhite then 'w' else 'b'] + PieceNames[name]
  }

  /** The validator's verdict on moving `code` from each square to `target`.
      The search consults the verdict of a square only when the square holds
      `code`, so, the verdicts being pure values, this gives the same answers
      as calling the validator inside the loop. */
  function Verdicts(code: string, target: string, board: seq<string>): (v: seq<Result<bool>>)
    requires |code| >= 2 && WellFormed(target) && IsBoard(board)
    ensures |v| == 64
  {
    seq(64, (i: int) requires 0 <= i < 64 => IsValidMove(code, IndexToNotation(i), target, board))
  }

  /** Square `i` holds `code` and the validator accepts the move from it. */
  predicate Qualifies(code: string, target: string, board: seq<string>, i: Square)
    requires |code| >= 2 && WellFormed(target) && IsBoard(board)
  {
    board[i] == code && IsValidMove(code, IndexToNotation(i), target, board) == Ok(true)
  }

  /** The search goes past square `i` without an exception. */
  predicate PassesOver(code: string, target: string, board: seq<string>, i: Square)
    requires |code| >= 2 && WellFormed(target) && IsBoard(board)
  {
    board[i] != code || IsValidMove(code, IndexToNotation(i), target, board) == Ok(false)
  }

  /** The validator throws `f` on square `i`, which holds `code`. */
  predicate FaultsAt(code: string, target: string, board: seq<string>, i: Square, f: Fault)
    requires |code| >= 2 && WellFormed(target) && IsBoard(board)
  {
    board[i] == code && IsValidMove(code, IndexToNotation(i), target, board) == Fail(f)
  }

  /** `PassesOver`, given the verdicts. */
  predicate Skips(code: string, board: seq<string>, verdicts: seq<Result<bool>>, i: Square)
    requires IsBoard(board) && |verdicts| == 64
  {
    board[i] != code || verdicts[i] == Ok(false)
  }

  /** The loop of `findSourceSquare` from index `i` on: the first square in
      index order that holds `code` with a verdict other than false gives the
      answer, a square when the verdict is true and the exception otherwise;
      there is none when every square is skipped. */
  function FirstSource(code: string, board: seq<string>, verdicts: seq<Result<bool>>, i: nat): (r: Result<Option<Square>>)
    requires IsBoard(board) && |verdicts| == 64 && i <= 64
    ensures r.Ok? && r.value.Some? ==>
              && i <= r.value.value
              && board[r.value.value] == code && verdicts[r.value.value] == Ok(true)
              && forall j: Square :: i <= j < r.value.value ==> Skips(code, board, verdicts, j)
    ensures r.Fail? ==>
              exists k: Square ::
                && i <= k && board[k] == code && verdicts[k] == Fail(r.fault)
                && forall j: Square :: i <= j < k ==> Skips(code, board, verdicts, j)
    decreases 64 - i
  {
    if i == 64 then Ok(None)
    else if board[i] == code then
      match verdicts[i]
      case Fail(f) => Fail(f)
      case Ok(true) => Ok(Some(i))
      case Ok(false) => FirstSource(code, board, verdicts, i + 1)
    else FirstSource(code, board, verdicts, i + 1)
  }

  /** The search comes back empty exactly when every square from `i` on is
      skipped. */
  lemma {:induction false} FirstSourceNone(code: string, board: seq<string>, verdicts: seq<Result<bool>>, i: nat)
    requires IsBoard(board) && |verdicts| == 64 && i <= 64
    ensures FirstSource(code, board, verdicts, i) == Ok(None) ==>
              forall j: Square :: i <= j ==> Skips(code, board, verdicts, j)
    ensures (forall j: Square :: i <= j ==> Skips(code, board, verdicts, j)) ==>
              FirstSource(code, board, verdicts, i) == Ok(None)
    decreases 64 - i
  {
    if i < 64 {
      FirstSourceNone(code, board, verdicts, i + 1);
      if forall j: Square :: i <= j ==> Skips(code, board, verdicts, j) {
        assert Skips(code, board, verdicts, i);
        assert forall j: Square :: i + 1 <= j ==> Skips(code, board, verdicts, j);
      }
    }
  }

  /** Squares that do not hold `code` are passed over without a look at
      their verdicts. */
  lemma {:induction false} FirstSourceSkips(code: string, board: seq<string>, verdicts: seq<Result<bool>>, i: nat, k: nat)
    requires IsBoard(board) && |verdicts| == 64 && i <= k <= 64
    requires forall j :: i <= j < k ==> board[j] != code
    ensures FirstSource(code, board, verdicts, i) == FirstSource(code, board, verdicts, k)
    decreases k - i
  {
    if i < k {
      FirstSourceSkips(code, board, verdicts, i + 1, k);
    }
  }

  /** The first square holding `code` decides the search unless its verdict
      is false. */
  lemma FirstHolderDecides(code: string, board: seq<string>, verdicts: seq<Result<bool>>, k: Square)
    requires IsBoard(board) && |verdicts| == 64 && board[k] == code
    requires forall j :: 0 <= j < k ==> board[j] != code
    ensures verdicts[k] == Ok(true) ==> FirstSource(code, board, verdicts, 0) == Ok(Some(k))
    ensures verdicts[k].Fail? ==> FirstSource(code, board, verdicts, 0) == Fail(verdicts[k].fault)
  {
    FirstSourceSkips(code, board, verdicts, 0, k);
  }

  /** Skipping a square, accepting it or throwing on it, read off the
      verdicts, mean what the validator says about that square. */
  lemma VerdictsMean(code: string, target: string, board: seq<string>)
    requires |code| >= 2 && WellFormed(target) && IsBoard(board)
    ensures var v := Verdicts(code, target, board);
            forall i: Square ::
              && (Skips(code, board, v, i) <==> PassesOver(code, target, board, i))
              && (board[i] == code && v[i] == Ok(true) <==> Qualifies(code, target, board, i))
              && forall f: Fault :: board[i] == code && v[i] == Fail(f) <==> FaultsAt(code, target, board, i, f)
  {
  }

  /** `findSourceSquare`: the notation of the first square holding the
      mover's piece of the named kind from which the validator accepts the
      move; none when the search passes over every square; the validator's
      exception at the first square where it throws before that. */
  function FindSourceSquare(pieceName: string, targetSquare: string, isWhite: bool, lobby: Lobby): (r: Result<Option<string>>)
    requires pieceName in PieceNames && WellFormed(targetSquare) && IsBoard(lobby.board)
    ensures r.Ok? && r.value.Some? ==>
              var source := r.value.value;
              && WellFormed(source)
              && Qualifies(PieceCode(pieceName, isWhite), targetSquare, lobby.board, NotationToIndex(source))
              && forall j: Square :: j < NotationToIndex(source) ==>
                   PassesOver(PieceCode(pieceName, isWhite), targetSquare, lobby.board, j)
    ensures r == Ok(None) ==>
              forall j: Square :: PassesOver(PieceCode(pieceName, isWhite), targetSquare, lobby.board, j)
    ensures (forall j: Square :: PassesOver(PieceCode(pieceName, isWhite), targetSquare, lobby.board, j)) ==>
              r == Ok(None)
    ensures r.Fail? ==>
              exists k: Square ::
                && FaultsAt(PieceCode(pieceName, isWhite), targetSquare, lobby.board, k, r.fault)
                && forall j: Square :: j < k ==> PassesOver(PieceCode(pieceName, isWhite), targetSquare, lobby.board, j)
  {
    var code := PieceCode(pieceName, isWhite);
    var verdicts := Verdicts(code, targetSquare, lobby.board);
    VerdictsMean(code, targetSquare, lobby.board);
    FirstSourceNone(code, lobby.board, verdicts, 0);
    match FirstSource(code, lobby.board, verdicts, 0)
    case Fail(f) => Fail(f)
    case Ok(None) => Ok(None)
    case Ok(Some(i)) => IndexRoundTrip(i); Ok(Some(IndexToNotation(i)))
  }

  /** The second half of `parseNaturalLanguage`: resolve a match to a move
      from the first qualifying square to the lower-cased captured square. */
  function Resolve(m: Match, isWhite: bool, lobby: Lobby): (r: Result<Option<Move>>)
    requires m.name in PieceNames && WellFormed(Lower(m.square)) && IsBoard(lobby.board)
    ensures r.Ok? && r.value.Some? ==>
              var move := r.value.value;
              var code := PieceCode(m.name, isWhite);
              && move.to == Lower(m.square)
              && move.promotion == None
              && WellFormed(move.from)
              && lobby.board[NotationToIndex(move.from)] == code
              && IsValidMove(code, move.from, move.to, lobby.board) == Ok(true)
              && forall j: Square :: j < NotationToIndex(move.from) ==> PassesOver(code, move.to, lobby.board, j)
    ensures r == Ok(None) ==>
              forall j: Square :: PassesOver(PieceCode(m.name, isWhite), Lower(m.square), lobby.board, j)
    ensures (forall j: Square :: PassesOver(PieceCode(m.name, isWhite), Lower(m.square), lobby.board, j))
              ==> r == Ok(None)
    ensures r.Fail? ==>
              exists k: Square ::
                && FaultsAt(PieceCode(m.name, isWhite), Lower(m.square), lobby.board, k, r.fault)
                && forall j: Square :: j < k ==> PassesOver(PieceCode(m.name, isWhite), Lower(m.square), lobby.board, j)
  {
    var target := Lower(m.square);
    match FindSourceSquare(m.name, target, isWhite, lobby)
    case Fail(f) => Fail(f)
    case Ok(None) => Ok(None)
    case Ok(Some(source)) => Ok(Some(Move(source, target, None)))
  }

  /** `parseNaturalLanguage`: upper-case and trim the command, find the
      leftmost match of the pattern, and resolve it for the side to move.
      No match gives no move; a move found names the matched piece kind,
      moves it to the lower-cased captured square, is accepted by the
      validator, and never carries a promotion piece. An exception escapes
      only from a match, and it is the one the validator raised at the
      first square holding the piece that the search did not pass over. */
  function ParseNaturalLanguage(command: string, isWhite: bool, lobby: Lobby): (r: Result<Option<Move>>)
    requires IsBoard(lobby.board)
    ensures FindMatch(Trim(Upper(command)), 0).None? ==> r == Ok(None)
    ensures r.Ok? && r.value.Some? ==>
              var s := Trim(Upper(command));
              var move := r.value.value;
              && FindMatch(s, 0).Some?
              && var code := PieceCode(FindMatch(s, 0).value.name, isWhite);
                 && move.to == Lower(FindMatch(s, 0).value.square)
                 && move.promotion == None
                 && WellFormed(move.from)
                 && lobby.board[NotationToIndex(move.from)] == code
                 && IsValidMove(code, move.from, move.to, lobby.board) == Ok(true)
                 && forall j: Square :: j < NotationToIndex(move.from) ==> PassesOver(code, move.to, lobby.board, j)
    ensures r.Fail? ==>
              var s := Trim(Upper(command));
              && FindMatch(s, 0).Some?
              && var m := FindMatch(s, 0).value;
                 exists k: Square ::
                   && FaultsAt(PieceCode(m.name, isWhite), Lower(m.square), lobby.board, k, r.fault)
                   && forall j: Square :: j < k ==> PassesOver(PieceCode(m.name, isWhite), Lower(m.square), lobby.board, j)
  {
    var s := Trim(Upper(command));
    match FindMatch(s, 0)
    case None => Ok(None)
    case Some(m) => Resolve(m, isWhite, lobby)
  }

  /** No move comes back exactly when the pattern does not occur or every
      square is passed over: none holds a piece of the named kind that the
      validator lets move to the captured square. */
  lemma ParseFindsNothing(command: string, isWhite: bool, lobby: Lobby)
    requires IsBoard(lobby.board)
    ensures var s := Trim(Upper(command));
            ParseNaturalLanguage(command, isWhite, lobby) == Ok(None) ==>
              || FindMatch(s, 0).None?
              || forall j: Square ::
                   PassesOver(PieceCode(FindMatch(s, 0).value.name, isWhite),
                              Lower(FindMatch(s, 0).value.square), lobby.board, j)
    ensures var s := Trim(Upper(command));
            (|| FindMatch(s, 0).None?
             || forall j: Square ::
                  PassesOver(PieceCode(FindMatch(s, 0).value.name, isWhite),
                             Lower(FindMatch(s, 0).value.square), lobby.board, j))
            ==> ParseNaturalLanguage(command, isWhite, lobby) == Ok(None)
  {
    var s := Trim(Upper(command));
    match FindMatch(s, 0)
    case None =>
    case Some(m) =>
      assert ParseNaturalLanguage(command, isWhite, lobby) == Resolve(m, isWhite, lobby);
  }

  /** Commands that differ only in the case of ASCII letters parse alike. */
  lemma ParseIgnoresCase(c1: string, c2: string, isWhite: bool, lobby: Lobby)
    requires IsBoard(lobby.board)
    requires |c1| == |c2| && forall i :: 0 <= i < |c1| ==> UpperChar(c1[i]) == UpperChar(c2[i])
    ensures ParseNaturalLanguage(c1, isWhite, lobby) == ParseNaturalLanguage(c2, isWhite, lobby)
  {
    assert Upper(c1) == Upper(c2);
  }
}
