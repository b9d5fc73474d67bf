/** The square codec: algebraic notation ("e4") to a flat board index and
    back. Index 0 is a8, indices grow along a rank from the a-file to the
    h-file and then down the board, so index 63 is h1. */
module Squares {

  /** A board index. */
  type Square = i: int | 0 <= i < 64

  /** Row of a square counted from the top (rank 8 is row 0). */
  function Row(s: Square): (r: int)
    ensures 0 <= r < 8
  {
    s / 8
  }

  /** Column of a square counted from the a-file. */
  function Col(s: Square): (c: int)
    ensures 0 <= c < 8
  {
    s % 8
  }

  /** The square at a given row and column. */
  function At(r: int, c: int): (s: Square)
    requires 0 <= r < 8 && 0 <= c < 8
    ensures Row(s) == r && Col(s) == c
  {
    r * 8 + c
  }

  /** A board as the lobby stores it: one entry per square. */
  predicate IsBoard(board: seq<string>) { |board| == 64 }

  lemma SquareIsRowAndCol(s: Square)
    ensures At(Row(s), Col(s)) == s
  {
  }

  predicate IsFile(c: char) { 'a' <= c <= 'h' }

  predicate IsRank(c: char) { '1' <= c <= '8' }

  /** One file letter a-h followed by one rank digit 1-8, nothing else. */
  predicate WellFormed(s: string)
  {
    |s| == 2 && IsFile(s[0]) && IsRank(s[1])
  }

  /** `Character.getNumericValue` on an ASCII character: the digit value of
      '0'-'9', 10-35 for the letters of either case, and -1 otherwise. */
  function NumericValue(c: char): (v: int)
    requires c < 128 as char
    ensures '0' <= c <= '9' ==> v == c as int - '0' as int
    ensures -1 <= v <= 35
    ensures v == -1 <==> !('0' <= c <= '9' || 'a' <= c <= 'z' || 'A' <= c <= 'Z')
  {
    if '0' <= c <= '9' then c as int - '0' as int
    else if 'a' <= c <= 'z' then c as int - 'a' as int + 10
    else if 'A' <= c <= 'Z' then c as int - 'A' as int + 10
    else -1
  }

  /** `notationToIndex`: only the first two characters are read and nothing
      is validated, so a malformed string yields an index off the board. For
      well-formed notation the file letter gives the column and the rank digit
      counts rows up from the bottom. */
  function NotationToIndex(s: string): (r: int)
    requires |s| >= 2 && s[1] < 128 as char
    ensures IsFile(s[0]) && IsRank(s[1]) ==>
              0 <= r < 64 && Col(r) == s[0] as int - 'a' as int
              && Row(r) == 8 - (s[1] as int - '0' as int)
  {
    var fileIndex := s[0] as int - 'a' as int;
    var rankIndex := 8 - NumericValue(s[1]);
    rankIndex * 8 + fileIndex
  }

  /** `indexToNotation`: the file letter of the column followed by the rank
      digit of the row. */
  function IndexToNotation(i: Square): (r: string)
    ensures WellFormed(r)
    ensures r[0] as int - 'a' as int == Col(i)
    ensures r[1] as int - '0' as int == 8 - Row(i)
  {
    var file := i % 8;
    var rank := 8 - i / 8;
    [('a' as int + file) as char, ('0' as int + rank) as char]
  }

  /** Every index survives the trip through notation. */
  lemma IndexRoundTrip(i: Square)
    ensures NotationToIndex(IndexToNotation(i)) == i
  {
    var n := IndexToNotation(i);
    var r := NotationToIndex(n);
    assert Row(r) == Row(i) && Col(r) == Col(i);
    SquareIsRowAndCol(r);
    SquareIsRowAndCol(i);
  }

  /** Every well-formed notation names a square and survives the trip
      through the index. */
  lemma NotationRoundTrip(s: string)
    requires WellFormed(s)
    ensures 0 <= NotationToIndex(s) < 64
    ensures IndexToNotation(NotationToIndex(s)) == s
  {
    var i := NotationToIndex(s);
    var n := IndexToNotation(i);
    assert n[0] == s[0] && n[1] == s[1];
  }

  /** Corner values of the codec: a8 is the first index and h1 the last. */
  lemma CodecCorners()
    ensures NotationToIndex("a8") == 0 && NotationToIndex("h1") == 63
    ensures IndexToNotation(0) == "a8" && IndexToNotation(63) == "h1"
    ensures IndexToNotation(7) == "h8" && IndexToNotation(56) == "a1"
  {
  }
}
