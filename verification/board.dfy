/**
 * The 3x3 board of the tic-tac-toe engine and its referee.
 *
 * The board is a list of nine cells in row-major order. An empty cell at
 * index i holds the number i + 1; a taken cell holds the mark 'X' or 'O'.
 * The referee scans the eight fixed lines in a fixed order and the first
 * line whose three cells are equal decides the game.
 */
module Board {
  import opened Wrappers

  datatype Player = X | O

  /** The statuses a game reports. */
  datatype GameStatus = InProgress | Win | Lose | Tie | InvalidMove

  /** A cell holds either a number (an empty cell) or a player's mark. */
  datatype Cell = Num(n: int) | Mark(p: Player)

  function Other(p: Player): (q: Player)
    ensures q != p
  {
    if p == X then O else X
  }

  /** The eight lines in the order the referee scans them: rows, columns, diagonals. */
  function LineAt(j: int): (l: (int, int, int))
    requires 0 <= j < 8
    ensures 0 <= l.0 < 9 && 0 <= l.1 < 9 && 0 <= l.2 < 9
    ensures l.0 < l.1 < l.2
  {
    if j == 0 then (0, 1, 2)
    else if j == 1 then (3, 4, 5)
    else if j == 2 then (6, 7, 8)
    else if j == 3 then (0, 3, 6)
    else if j == 4 then (1, 4, 7)
    else if j == 5 then (2, 5, 8)
    else if j == 6 then (0, 4, 8)
    else (2, 4, 6)
  }

  predicate OnLine(c: int, j: int)
    requires 0 <= j < 8
  {
    c == LineAt(j).0 || c == LineAt(j).1 || c == LineAt(j).2
  }

  /** Two different cells lie together on at most one line. */
  lemma LinesMeetOnce(a: int, b: int, j1: int, j2: int)
    requires 0 <= j1 < 8 && 0 <= j2 < 8 && a != b
    requires OnLine(a, j1) && OnLine(b, j1) && OnLine(a, j2) && OnLine(b, j2)
    ensures j1 == j2
  {
  }

  /** Every cell of the board is its own number or a mark. */
  ghost predicate WellFormed(b: seq<Cell>)
  {
    |b| == 9 && forall i :: 0 <= i < 9 ==> b[i] == Num(i + 1) || b[i].Mark?
  }

  /** The board of a fresh game: every cell empty. */
  function InitialBoard(): (b: seq<Cell>)
    ensures WellFormed(b)
    ensures forall i :: 0 <= i < 9 ==> !b[i].Mark?
  {
    seq(9, i => Num(i + 1))
  }

  /** The three cells of line j are equal (what the referee looks for). */
  predicate LineEqual(b: seq<Cell>, j: int)
    requires |b| == 9 && 0 <= j < 8
  {
    b[LineAt(j).0] == b[LineAt(j).1] == b[LineAt(j).2]
  }

  predicate AllMarked(b: seq<Cell>)
  {
    forall i :: 0 <= i < |b| ==> b[i].Mark?
  }

  /** The first line, at or after position k of the scan, whose cells are equal. */
  function FirstLine(b: seq<Cell>, k: int): (r: Option<int>)
    requires |b| == 9 && 0 <= k <= 8
    ensures r.Some? ==> k <= r.value < 8 && LineEqual(b, r.value)
    ensures r.Some? ==> forall j :: k <= j < r.value ==> !LineEqual(b, j)
    ensures r.None? ==> forall j :: k <= j < 8 ==> !LineEqual(b, j)
    decreases 8 - k
  {
    if k == 8 then None
    else if LineEqual(b, k) then Some(k)
    else FirstLine(b, k + 1)
  }

  /** A scan from k that sees no equal line before j and an equal line at j stops at j. */
  lemma {:induction false} FirstLineAt(b: seq<Cell>, k: int, j: int)
    requires |b| == 9 && 0 <= k <= j < 8 && LineEqual(b, j)
    requires forall j' :: k <= j' < j ==> !LineEqual(b, j')
    ensures FirstLine(b, k) == Some(j)
    decreases j - k
  {
    if k < j {
      FirstLineAt(b, k + 1, j);
    }
  }

  /** What the referee concludes about a board. */
  datatype Verdict = Ongoing | Won(cell: Cell) | Draw

  /**
   * The referee: the value on the first equal line wins; with no equal line
   * a board whose nine cells are all marks is a draw.
   */
  function Classify(b: seq<Cell>): (v: Verdict)
    requires |b| == 9
    ensures v.Won? ==>
      exists j :: 0 <= j < 8 && LineEqual(b, j) && v.cell == b[LineAt(j).0] &&
                  forall j' :: 0 <= j' < j ==> !LineEqual(b, j')
    ensures !v.Won? <==> forall j :: 0 <= j < 8 ==> !LineEqual(b, j)
    ensures v.Draw? <==> !v.Won? && AllMarked(b)
  {
    match FirstLine(b, 0)
    case Some(j) => Won(b[LineAt(j).0])
    case None => if AllMarked(b) then Draw else Ongoing
  }

  /**
   * Two finished lines, X's on row A and O's on row B: the scan meets row A
   * first, so X is named.
   */
  lemma ClassifyFirstRow()
    ensures Classify([Mark(X), Mark(X), Mark(X), Mark(O), Mark(O), Mark(O), Num(7), Num(8), Num(9)]) == Won(Mark(X))
  {
  }

  /**
   * Empty cells hold distinct numbers, so on a well-formed board only a line
   * of three equal marks can be equal: the referee only ever names a mark.
   */
  lemma WinnerIsMark(b: seq<Cell>)
    requires WellFormed(b)
    ensures Classify(b).Won? ==> Classify(b).cell.Mark?
    ensures forall j :: 0 <= j < 8 && LineEqual(b, j) ==> b[LineAt(j).0].Mark?
  {
  }
}
