# chess-java board logic in Dafny

This project models the board logic of the chess-java backend:

- the square codec of `ChessUtils`;
- the per-piece move check of `MoveValidator`;
- the natural-language command parser of `MoveParser`;
- the board that a `Lobby` holds.

The board is a flat sequence of 64 piece codes. Codes are strings such as `"wP"` (white pawn) and `"bK"` (black king), and an empty square is `""`. Index 0 is a8, index 7 is h8 and index 63 is h1.

The Java code never reports an error itself. On some inputs its callers can reach, though, it throws one of two runtime exceptions:

- `ArithmeticException`: a bishop asked to move onto its own square divides by a zero row distance. A queen does the same when its rook half, described next, answers false first.
- `IndexOutOfBoundsException`:
  - a rook asked for the null move scans downward from the square below its own index. It answers false at the first occupied square it meets, and it runs past index 0 only when every lower square is empty;
  - a pawn's en-passant probe reads index -1 or 64.

The model returns these as `Fail(DivisionByZero)` and `Fail(IndexOutOfBounds)` (module `Outcomes`), so every operation is total. Java's `null` is `None`.

Modules, one per concern:

| module | file | models |
|---|---|---|
| `Outcomes` | outcomes.dfy | exceptions and `null` as values |
| `Squares` | squares.dfy | `ChessUtils.notationToIndex`, `indexToNotation` |
| `Lines` | lines.dfy | a row/column reference for straight lines. It is used to state what the index-stepping loops of the slider rules compute. |
| `MoveValidator` | validator.dfy | `isValidMove` and the six piece rules |
| `Text` | text.dfy | the `String` operations the parser uses: ASCII `toUpperCase` and `toLowerCase`, `trim`, `contains` |
| `LobbyModel` | lobby.dfy | the opening position, the lobby constructor, `getBoardState` and `setBoardState` |
| `MoveParser` | parser.dfy | `PIECE_NAMES`, `isNaturalLanguageCommand`, the command pattern, `findSourceSquare` and `parseNaturalLanguage` |
| `Scenarios` | scenarios.dfy | concrete consequences on the opening position |

For two distinct squares, each piece rule is proved equal to a coordinate-level statement. What each rule does with the null move (`from == to`) is stated separately by `MoveValidator.NullMove`.

- rook: same row or column, with a clear path;
- bishop: same diagonal, with a clear path;
- queen: either of the above;
- knight: a (1,2) or (2,1) jump;
- king: at most one step in each direction;
- pawn: forward step, double step from the start row, or capture/en passant at index offsets 7 and 9.

The rules are stated as the code implements them:

- only the pawn reads the destination square;
- the king accepts the null move;
- a pawn's offset-7/9 "diagonal" wraps across the a/h files;
- en passant needs no move history.

The regular expression `(KNIGHT|BISHOP|ROOK|QUEEN|KING|PAWN)\s+TO\s+([A-H][1-8])` is handled in two layers:

- an executable matcher (`MatchAt`, `FindMatch`);
- a declarative description (`PatternAt`).

The two are proved equal, and `FindMatch` returns the leftmost match.

Parsing and the source-square search take the lobby as a value and return only a move or a square, so they cannot change the board.

The source-square search is modelled as the first square in index order that holds the mover's piece of that kind and whose verdict is not "false". A proved consequence: for white, "Queen to d1" on the opening position ends in the division-by-zero exception.

## Model

Paths are relative to the repository root. Every `MoveValidator.java`, `MoveParser.java` and `ChessUtils.java` path is under `backend/src/main/java/com/jeremy/chess/util/`, and `Lobby.java` is under `backend/src/main/java/com/jeremy/chess/model/`.

| member | source | states |
|---|---|---|
| Squares.NumericValue | backend/src/main/java/com/jeremy/chess/util/ChessUtils.java:23 | `Character.getNumericValue` on ASCII: digits give their value, and the result is -1 exactly for characters that are neither digits nor letters |
| Squares.NotationToIndex | backend/src/main/java/com/jeremy/chess/util/ChessUtils.java:18-26 | for a file letter a–h and a rank digit 1–8, the index is on the board, its column is the file and its row counts ranks down from 8 |
| Squares.IndexToNotation | backend/src/main/java/com/jeremy/chess/util/ChessUtils.java:34-38 | the result is two characters, a file letter a–h naming the column and a rank digit naming 8 minus the row |
| Squares.IndexRoundTrip | backend/src/main/java/com/jeremy/chess/util/ChessUtils.java:18-38 | converting an index to notation and back gives the same index |
| Squares.NotationRoundTrip | backend/src/main/java/com/jeremy/chess/util/ChessUtils.java:18-38 | well-formed notation names a square, and converting it to an index and back gives the same text |
| Squares.CodecCorners | backend/src/main/java/com/jeremy/chess/util/ChessUtils.java:12-38 | a8 is index 0, h8 is 7, a1 is 56 and h1 is 63, as the method comments document |
| MoveValidator.IsValidMove | backend/src/main/java/com/jeremy/chess/util/MoveValidator.java:22-32 | a code whose second letter is not P, R, N, B, Q or K is refused. An exception is possible only for a rook, bishop or queen on the null move, or a pawn going h1→a1 (white) or a8→h8 (black) onto an empty square. |
| MoveValidator.Scan | backend/src/main/java/com/jeremy/chess/util/MoveValidator.java:93-97 | the stepping loop can fail only by indexing off the board. What it computes is stated by `ScanAlong` and `SliderScan` along a line, and by `ScanDown` on the null move. |
| MoveValidator.PawnMove | backend/src/main/java/com/jeremy/chess/util/MoveValidator.java:43-76 | never divides by zero, and throws iff the destination is empty and the move is h1→a1 for white or a8→h8 for black. Acceptance is stated by `PawnRule`. |
| MoveValidator.StepInRows | backend/src/main/java/com/jeremy/chess/util/MoveValidator.java:48-51 | the index test for the single step means one row forward in the pawn's file onto an empty square |
| MoveValidator.DoubleInRows | backend/src/main/java/com/jeremy/chess/util/MoveValidator.java:53-57 | the index test for the double step means two rows forward in the pawn's file from its start row, over and onto empty squares |
| MoveValidator.RookMove | backend/src/main/java/com/jeremy/chess/util/MoveValidator.java:87-112 | only the null move can make the rook rule throw, and then the exception is an index out of bounds. Acceptance is stated by `RookRule` and the null move by `NullMove`. |
| MoveValidator.RookScanStays | backend/src/main/java/com/jeremy/chess/util/MoveValidator.java:91-108 | between distinct squares of a row or column, the rook's scan never leaves the board |
| MoveValidator.KnightMove | backend/src/main/java/com/jeremy/chess/util/MoveValidator.java:123-130 | an accepted knight jump changes the square and never runs along a rank, file or diagonal. Acceptance is stated by `KnightRule`. |
| MoveValidator.BishopMove | backend/src/main/java/com/jeremy/chess/util/MoveValidator.java:141-158 | the bishop rule throws iff the move is the null move, and then the exception is a division by zero. Acceptance is stated by `BishopRule`. |
| MoveValidator.QueenMove | backend/src/main/java/com/jeremy/chess/util/MoveValidator.java:169-171 | the queen rule throws only on the null move. Acceptance is stated by `QueenRule` and the null move by `NullMove`. |
| MoveValidator.KingMove | backend/src/main/java/com/jeremy/chess/util/MoveValidator.java:182-189 | the king rule accepts iff the king-step distance between the squares is at most one. The notation form is `KingRule`. |
| MoveValidator.PawnRule | backend/src/main/java/com/jeremy/chess/util/MoveValidator.java:43-76 | a pawn move is accepted iff one of three holds. (1) One row forward in its file onto an empty square. (2) Two rows forward from its start row over and onto empty squares. (3) Offset 7 or 9 in its direction onto an enemy piece, or onto an empty square with an enemy pawn one row behind it. |
| MoveValidator.PawnDiagonalGeometry | backend/src/main/java/com/jeremy/chess/util/MoveValidator.java:59-60 | offsets 7 and 9 are one-column diagonal steps away from the edge files. From an edge file one of them lands seven columns away, in the same row or two rows ahead. |
| MoveValidator.PawnCaptureWraps | backend/src/main/java/com/jeremy/chess/util/MoveValidator.java:59-64 | a white pawn on h2 may capture a black piece on a2 |
| MoveValidator.EnPassantWithoutHistory | backend/src/main/java/com/jeremy/chess/util/MoveValidator.java:66-72 | a white pawn on e5 may move to an empty d6 whenever a black pawn is on d5, whatever moved last |
| MoveValidator.ScanAlong | backend/src/main/java/com/jeremy/chess/util/MoveValidator.java:149-153 | the stepping loop, started anywhere on the line, answers whether every remaining square of the line before the destination is empty |
| MoveValidator.SliderScan | backend/src/main/java/com/jeremy/chess/util/MoveValidator.java:93-97 | the loop started one step from the source answers exactly whether the path between source and destination is clear |
| MoveValidator.RookStep | backend/src/main/java/com/jeremy/chess/util/MoveValidator.java:91-102 | along a row the index step is ±1 and along a column ±8, pointing towards the destination |
| MoveValidator.RookRule | backend/src/main/java/com/jeremy/chess/util/MoveValidator.java:87-112 | for distinct squares, a rook move is accepted iff the squares share a row or a column and every square strictly between them is empty |
| MoveValidator.KnightRule | backend/src/main/java/com/jeremy/chess/util/MoveValidator.java:123-130 | a knight move is accepted iff the file and rank distances are 1 and 2 in some order, whatever the board holds |
| MoveValidator.BishopStep | backend/src/main/java/com/jeremy/chess/util/MoveValidator.java:144-148 | on a diagonal, the index difference divided by the row distance with truncation is the diagonal's index step, never 0 |
| MoveValidator.BishopRule | backend/src/main/java/com/jeremy/chess/util/MoveValidator.java:141-158 | for distinct squares, a bishop move is accepted iff the squares share a diagonal and the path between them is clear |
| MoveValidator.QueenRule | backend/src/main/java/com/jeremy/chess/util/MoveValidator.java:169-171 | for distinct squares, the queen accepts iff the rook or the bishop rule does, that is, iff the squares share a line with a clear path |
| MoveValidator.KingRule | backend/src/main/java/com/jeremy/chess/util/MoveValidator.java:182-189 | a king move is accepted iff neither file nor rank changes by more than one, so staying put is accepted |
| MoveValidator.SliderRules | backend/src/main/java/com/jeremy/chess/util/MoveValidator.java:22-171 | the rook, bishop and queen rules restated for notation arguments via the dispatch |
| MoveValidator.SlidersFaultOnlyOnNullMove | backend/src/main/java/com/jeremy/chess/util/MoveValidator.java:87-171 | between distinct squares, the rook, bishop and queen rules never throw |
| MoveValidator.ScanDown | backend/src/main/java/com/jeremy/chess/util/MoveValidator.java:91-98 | a downward scan that never meets its target answers false if a lower square is occupied, and otherwise runs off the board |
| MoveValidator.NullMove | backend/src/main/java/com/jeremy/chess/util/MoveValidator.java:43-189 | on the null move the king accepts and the knight and pawn refuse. The bishop divides by zero. The rook answers false if some lower index is occupied and runs off the board otherwise. The queen divides by zero in the first case and runs off the board in the second. |
| MoveValidator.ScanIgnoresTarget | backend/src/main/java/com/jeremy/chess/util/MoveValidator.java:93-97 | the stepping loop never reads the destination square |
| MoveValidator.RookIgnoresTarget | backend/src/main/java/com/jeremy/chess/util/MoveValidator.java:87-112 | the rook's answer does not depend on what stands on the destination |
| MoveValidator.BishopIgnoresTarget | backend/src/main/java/com/jeremy/chess/util/MoveValidator.java:141-158 | the bishop's answer does not depend on what stands on the destination |
| MoveValidator.OnlyPawnsReadTheDestination | backend/src/main/java/com/jeremy/chess/util/MoveValidator.java:22-189 | for every non-pawn code, replacing the destination's content leaves the verdict unchanged, so own pieces can be "captured" |
| Text.Upper | backend/src/main/java/com/jeremy/chess/util/MoveParser.java:37 | same length, and each character is upper-cased on its own |
| Text.Lower | backend/src/main/java/com/jeremy/chess/util/MoveParser.java:45 | same length, and each character is lower-cased on its own |
| Text.UpperIsUpper | backend/src/main/java/com/jeremy/chess/util/MoveParser.java:94 | an upper-cased string has no lower-case ASCII letter, and upper-casing twice changes nothing |
| Text.Trim | backend/src/main/java/com/jeremy/chess/util/MoveParser.java:37 | the result is a slice of the input. Only characters ≤ space are cut away, and the result neither starts nor ends with one. |
| Text.ContainsIff | backend/src/main/java/com/jeremy/chess/util/MoveParser.java:95-96 | `contains` holds iff the text occurs at some index |
| LobbyModel.InitialRows | backend/src/main/java/com/jeremy/chess/model/Lobby.java:13-22 | the opening board has 64 squares: black's back rank, black pawns, four empty rows, white pawns, and white's back rank in the same files |
| LobbyModel.InitialBoardIsStandard | backend/src/main/java/com/jeremy/chess/model/Lobby.java:13-22 | every square of the literal board holds what the standard position prescribes for its row and column |
| LobbyModel.OneKingEach | backend/src/main/java/com/jeremy/chess/model/Lobby.java:13-22 | exactly one black king, on e8, and exactly one white king, on e1 |
| LobbyModel.NewLobby | backend/src/main/java/com/jeremy/chess/model/Lobby.java:25-30 | a new lobby holds a 64-square board |
| LobbyModel.NewLobbyIsInitial | backend/src/main/java/com/jeremy/chess/model/Lobby.java:25-38 | a new lobby's board, as read back, is the standard opening position |
| LobbyModel.GetBoardState | backend/src/main/java/com/jeremy/chess/model/Lobby.java:36-38 | reading the board and setting it back leaves the lobby unchanged, as stated by `SetWhatWasRead`. Reading after a set is stated by `SetBoardState`. |
| LobbyModel.SetWhatWasRead | backend/src/main/java/com/jeremy/chess/model/Lobby.java:36-43 | setting the board that was just read gives back the same lobby |
| LobbyModel.SetBoardState | backend/src/main/java/com/jeremy/chess/model/Lobby.java:40-43 | after a set, reading the board gives back exactly the board that was set |
| LobbyModel.SetReplacesBoard | backend/src/main/java/com/jeremy/chess/model/Lobby.java:36-43 | a later set overrides an earlier one, and nothing of the previous board survives |
| MoveParser.IsNaturalLanguageCommand | backend/src/main/java/com/jeremy/chess/util/MoveParser.java:93-97 | a message is a command iff " TO " and some piece name each occur somewhere in its trimmed upper-cased form |
| MoveParser.ContainsMeansOccurs | backend/src/main/java/com/jeremy/chess/util/MoveParser.java:95-96 | the two `contains` tests hold exactly when " TO " and some piece name occur |
| MoveParser.CommandIgnoresCase | backend/src/main/java/com/jeremy/chess/util/MoveParser.java:94 | upper-casing a message first does not change whether it is recognised |
| MoveParser.SkipSpaces | backend/src/main/java/com/jeremy/chess/util/MoveParser.java:40 | `\s+` taken greedily: every skipped character is a space and the next one is not |
| MoveParser.NameFrom | backend/src/main/java/com/jeremy/chess/util/MoveParser.java:40 | the alternation: a name found is a piece name occurring at the position, and none is found only if no alternative occurs there |
| MoveParser.NamesArePrefixFree | backend/src/main/java/com/jeremy/chess/util/MoveParser.java:18-26 | no piece name is a prefix of another, so at most one occurs at a position |
| MoveParser.NameFromIs | backend/src/main/java/com/jeremy/chess/util/MoveParser.java:40 | whichever piece name occurs at a position is the one the alternation finds |
| MoveParser.TailAtSound | backend/src/main/java/com/jeremy/chess/util/MoveParser.java:40 | what the tail matcher reports is spaces, "TO", spaces and a square A–H/1–8 |
| MoveParser.TailAtComplete | backend/src/main/java/com/jeremy/chess/util/MoveParser.java:40 | any spaces-"TO"-spaces-square tail is found by the tail matcher, with the same square |
| MoveParser.MatchAtSound | backend/src/main/java/com/jeremy/chess/util/MoveParser.java:40 | every match the matcher reports at a position is one the pattern describes |
| MoveParser.PatternOfParts | backend/src/main/java/com/jeremy/chess/util/MoveParser.java:40 | a piece name found at a position, followed by a tail the tail matcher accepts, is a match of the pattern |
| MoveParser.MatchAtComplete | backend/src/main/java/com/jeremy/chess/util/MoveParser.java:40 | every match the pattern describes at a position is the one the matcher reports |
| MoveParser.MatchAtIsPattern | backend/src/main/java/com/jeremy/chess/util/MoveParser.java:40 | the matcher reports (name, square) at a position iff the pattern matches there with that name and square |
| MoveParser.MatchShape | backend/src/main/java/com/jeremy/chess/util/MoveParser.java:40-45 | a match names a piece, and its captured square, lower-cased, is well-formed notation |
| MoveParser.FindMatch | backend/src/main/java/com/jeremy/chess/util/MoveParser.java:41-44 | `find`: a match is reported at the first position where the matcher succeeds, and none only if it succeeds nowhere |
| MoveParser.FindMatchIsLeftmost | backend/src/main/java/com/jeremy/chess/util/MoveParser.java:41-44 | the reported match is the leftmost match of the pattern, and none is reported iff the pattern matches nowhere |
| MoveParser.PieceCode | backend/src/main/java/com/jeremy/chess/util/MoveParser.java:68-70 | the searched code is the side's colour letter followed by the kind letter `PIECE_NAMES` gives the name: N for KNIGHT, the name's initial for every other piece |
| MoveParser.FirstSource | backend/src/main/java/com/jeremy/chess/util/MoveParser.java:73-84 | the loop. A square found holds the code, is accepted, and every earlier square is skipped. An exception comes from a square holding the code, all earlier squares skipped. |
| MoveParser.FirstSourceNone | backend/src/main/java/com/jeremy/chess/util/MoveParser.java:73-84 | the loop finds nothing iff every remaining square is skipped |
| MoveParser.FirstSourceSkips | backend/src/main/java/com/jeremy/chess/util/MoveParser.java:73-75 | squares not holding the code are passed without consulting the validator |
| MoveParser.FirstHolderDecides | backend/src/main/java/com/jeremy/chess/util/MoveParser.java:73-80 | the first square holding the code is the answer when accepted, and its exception is the answer when the validator throws there |
| MoveParser.FindSourceSquare | backend/src/main/java/com/jeremy/chess/util/MoveParser.java:66-85 | a square found is well-formed, holds the code and is accepted, and every earlier square is passed over. Null comes back iff every square is passed over. An exception that escapes is exactly the one the validator raised at a square holding the code, with every earlier square passed over. |
| MoveParser.Resolve | backend/src/main/java/com/jeremy/chess/util/MoveParser.java:44-54 | a move found goes from a square holding the code, accepted by the validator, to the lower-cased captured square, with no promotion. None comes back iff every square is passed over. An exception that escapes is the validator's exception at the first square holding the code that was not passed over. |
| MoveParser.ParseNaturalLanguage | backend/src/main/java/com/jeremy/chess/util/MoveParser.java:36-55 | no pattern match gives null. A move returned names the matched piece's code on its source, goes to the lower-cased captured square, is accepted by the validator and has no promotion, and the search passed over every earlier square, so the source is the first qualifying square in index order. An exception escapes only when the pattern matched, and it is the validator's exception at the first square holding the matched piece that was not passed over. |
| MoveParser.ParseFindsNothing | backend/src/main/java/com/jeremy/chess/util/MoveParser.java:36-55 | null comes back iff the pattern does not match, or every square is passed over for the matched piece and square |
| MoveParser.ParseIgnoresCase | backend/src/main/java/com/jeremy/chess/util/MoveParser.java:36-37 | commands differing only in ASCII letter case parse alike |
| Scenarios.PawnDoubleStep | backend/src/main/java/com/jeremy/chess/util/MoveValidator.java:53-57 | on the opening position, e2→e4 is accepted for the white pawn |
| Scenarios.RookBlocked | backend/src/main/java/com/jeremy/chess/util/MoveValidator.java:101-109 | on the opening position, the a1 rook cannot pass its own a2 pawn to reach a3 |
| Scenarios.WhiteQueenFirstAt59 | backend/src/main/java/com/jeremy/chess/model/Lobby.java:13-22 | the only white queen of the opening position is on index 59 (d1) |
| Scenarios.WhiteKnightFirstAt57 | backend/src/main/java/com/jeremy/chess/model/Lobby.java:13-22 | the first white knight in index order is on index 57 (b1) |
| Scenarios.QueenNullMove | backend/src/main/java/com/jeremy/chess/util/MoveValidator.java:141-171 | on the opening position, the white queen asked to move d1→d1 divides by zero |
| Scenarios.QueenToD1Throws | backend/src/main/java/com/jeremy/chess/util/MoveParser.java:66-85 | for white, searching a queen source for d1 on a new lobby ends in the division-by-zero exception, not in null |
| Scenarios.KnightFromB1 | backend/src/main/java/com/jeremy/chess/util/MoveValidator.java:123-130 | on the opening position, b1→c3 is accepted for the white knight |
| Scenarios.KnightToC3 | backend/src/main/java/com/jeremy/chess/util/MoveParser.java:66-85 | for white, searching a knight source for c3 on a new lobby gives b1 |

## Left out

- Controllers, services, message DTOs, the application class and the frontend: these are not board logic.
- `Lobby`'s identifier (`UUID`), `getId` and its logging: they are identity and I/O, not board logic.
- `ChessMove`'s getters and other members. Its constructor is the `Move` datatype.
- LobbyModel.NewLobby: its own contract states only the board size. The square-by-square content of a new lobby is stated by `NewLobbyIsInitial`.
- Java aliasing. `getBoardState` returns the live list and `setBoardState` stores the caller's list, but the model treats boards as values. The validator and parser never mutate the board, so no result depends on sharing.
- The general regular-expression engine. Only the one pattern the parser compiles is modelled, as a direct matcher proved equal to a description of the pattern.
- Text.Upper: maps ASCII letters only. Java's locale- and Unicode-aware `toUpperCase` (which can change string length, e.g. for 'ß') is not modelled. Text.Lower has the same limit.
- Squares.NotationToIndex: requires at least two characters with an ASCII second character. Shorter strings throw in Java, and non-ASCII digits have other `getNumericValue` values. Neither is modelled, because every caller passes two-character notation.
- Squares.IndexToNotation: defined on board indices 0–63 only. The Java method is only ever called with loop indices of a 64-entry board.
- MoveValidator.IsValidMove: requires a code of at least two characters, well-formed notation for both squares, and a 64-entry board. The parser passes only codes built from `PIECE_NAMES`, squares from `indexToNotation` and squares captured by `[A-H][1-8]`. Boards of another size, which a caller could install through `setBoardState`, are not modelled.
- MoveParser.FindSourceSquare: requires the piece name to be a key of `PIECE_NAMES`. The only caller passes a regex capture of one of those keys. The validator's verdicts are computed for all 64 squares up front and consulted only where the Java loop would call the validator. Since the validator is a pure function, this is the same result.
- MoveParser.ParseNaturalLanguage: exceptions raised by the source-square search propagate as `Fail`, just as the Java method lets them escape.
