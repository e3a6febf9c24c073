/**
 * The game object of the tic-tac-toe engine: its board, the two players'
 * marks, the referee's fields and the move history; the operations that
 * change them; and the three board generators, which write the board they
 * produce onto the game's own board.
 */
module Logic {
  import opened Wrappers
  import opened Board
  import opened Notation
  import opened Positions
  import opened RandomModel
  import opened Generators

  /** How many attempts get_rule_state_optimal makes before it falls back. */
  const MaxAttempts: nat := 1000

  /**
   * What the referee makes of the fields winner, is_finish and status: the
   * value on the first equal line wins, WIN when it is the opponent's mark
   * and LOSE otherwise; a full board with no equal line and no earlier
   * winner is a tie; any other board leaves the three fields as they were.
   */
  function Referee(b: seq<Cell>, opponent: Player, w: Option<Cell>, f: bool, s: GameStatus)
    : (r: (Option<Cell>, bool, GameStatus))
    requires WellFormed(b)
    ensures r.1 <==> f || Classify(b).Won? || (Classify(b) == Draw && w.None?)
    ensures Classify(b).Won? ==> r.0 == Some(Classify(b).cell) && r.0.value.Mark?
    ensures Classify(b).Won? ==> (r.2 == Win <==> r.0 == Some(Mark(opponent)))
    ensures Classify(b).Won? ==> (r.2 == Lose <==> r.0 != Some(Mark(opponent)))
    ensures r.2 == Tie && s != Tie ==> AllMarked(b) && (forall j :: 0 <= j < 8 ==> !LineEqual(b, j)) && w.None?
    ensures Classify(b) == Ongoing ==> r == (w, f, s)
  {
    WinnerIsMark(b);
    match Classify(b)
    case Won(c) => (Some(c), true, if c == Mark(opponent) then Win else Lose)
    case Draw => if w.None? then (w, true, Tie) else (w, f, s)
    case Ongoing => (w, f, s)
  }

  /**
   * From a running game with no winner, the referee's status says exactly
   * what the board is: WIN when the opponent's mark fills the first equal
   * line, LOSE when the other mark does, TIE when the board is full with no
   * equal line, and IN_PROGRESS otherwise.
   */
  lemma RefereeOutcome(b: seq<Cell>, opponent: Player)
    requires WellFormed(b)
    ensures Referee(b, opponent, None, false, InProgress).2 == Win <==> Classify(b) == Won(Mark(opponent))
    ensures Referee(b, opponent, None, false, InProgress).2 == Lose <==> Classify(b) == Won(Mark(Other(opponent)))
    ensures Referee(b, opponent, None, false, InProgress).2 == Tie <==>
      AllMarked(b) && forall j :: 0 <= j < 8 ==> !LineEqual(b, j)
    ensures Referee(b, opponent, None, false, InProgress).2 == InProgress <==> Classify(b) == Ongoing
  {
    WinnerIsMark(b);
  }

  /**
   * random.sample(['X', 'O'], 2): RandomModel.Sample's pool method on two
   * marks. Only the first draw matters, since the second picks from a pool
   * of one.
   */
  function DrawPlayers(roll: nat): (players: seq<Player>)
    ensures |players| == 2 && players[0] != players[1]
  {
    if roll % 2 == 0 then [X, O] else [O, X]
  }

  /** A move token that names a cell holding no mark yet. */
  predicate Playable(b: seq<Cell>, move: string)
    requires |b| == 9
  {
    var m := ParseMove(move);
    m.Some? && !b[m.value].Mark?
  }

  /**
   * random.randint(0, 8) followed by writing -1 at that index: the list then
   * has an empty cell, at the drawn index, and is otherwise unchanged.
   */
  function Blank(s: seq<int>, roll: nat): (r: seq<int>)
    ensures |s| == 9 ==> |r| == 9 && r[roll % 9] == -1 && -1 in r
    ensures |s| == 9 ==> forall i :: 0 <= i < 9 && i != roll % 9 ==> r[i] == s[i]
    ensures IsPositions(s) ==> IsPositions(r) && Count(r, -1) >= 1
  {
    if |s| == 9 then s[roll % 9 := -1] else s
  }

  class TicTacToeLogic {
    const playerFirst: bool
    var board: seq<Cell>
    var bot: Player
    var opponent: Player
    var winner: Option<Cell>
    var isFinish: bool
    var status: GameStatus
    var movesHistory: seq<string>

    /**
     * The object's invariant: the board is well formed, the players hold
     * different marks, a winner is a mark of a finished game, and the status
     * agrees with the referee's fields: WIN exactly when the game is over and
     * the opponent's mark won, LOSE when another mark won, TIE when it is
     * over without a winner.
     */
    ghost predicate Valid()
      reads this
    {
      WellFormed(board) && bot != opponent &&
      (winner.Some? ==> winner.value.Mark? && isFinish) &&
      (status == Win <==> isFinish && winner == Some(Mark(opponent))) &&
      (status == Lose <==> isFinish && winner.Some? && winner != Some(Mark(opponent))) &&
      (status == Tie <==> isFinish && winner.None?)
    }

    /** A fresh game: an empty board, no winner, IN_PROGRESS, no history, and the marks dealt. */
    constructor (playerFirst: bool, roll: nat)
      ensures Valid() && this.playerFirst == playerFirst
      ensures board == InitialBoard() && winner.None? && !isFinish && status == InProgress
      ensures movesHistory == []
      ensures (if playerFirst then bot else opponent) == DrawPlayers(roll)[0]
    {
      this.playerFirst := playerFirst;
      board := InitialBoard();
      bot, opponent := X, O;
      winner := None;
      isFinish := false;
      status := InProgress;
      movesHistory := [];
      new;
      InitializePlayers(roll);
    }

    /**
     * _initialize_players: the two marks go to the bot and the opponent, one
     * each; the first mark drawn goes to the bot when the player moves first
     * and to the opponent otherwise.
     */
    method InitializePlayers(roll: nat)
      requires WellFormed(board)
      requires winner.None? && !isFinish && status == InProgress
      modifies this
      ensures Valid() && bot == Other(opponent)
      ensures (if playerFirst then bot else opponent) == DrawPlayers(roll)[0]
      ensures board == old(board) && winner == old(winner) && isFinish == old(isFinish)
      ensures status == old(status) && movesHistory == old(movesHistory)
    {
      var players := DrawPlayers(roll);
      bot := players[0];
      opponent := if playerFirst then players[1] else players[0];
      bot := if playerFirst then players[0] else players[1];
    }

    /**
     * make_move: a cell holding no mark, in a game not over, takes the
     * player's mark and the referee looks at the new board; otherwise
     * nothing changes. No other cell is ever written.
     */
    method MakeMove(index: int, player: Player) returns (ok: bool)
      requires Valid() && 0 <= index < 9
      modifies this
      ensures Valid()
      ensures ok <==> !old(board)[index].Mark? && !old(isFinish)
      ensures ok ==> board == old(board)[index := Mark(player)]
      ensures ok ==> (winner, isFinish, status) == Referee(board, opponent, old(winner), old(isFinish), old(status))
      ensures !ok ==> board == old(board) && winner == old(winner) && isFinish == old(isFinish) && status == old(status)
      ensures movesHistory == old(movesHistory) && bot == old(bot) && opponent == old(opponent)
    {
      if !board[index].Mark? && !isFinish {
        board := board[index := Mark(player)];
        CheckWinner();
        return true;
      }
      return false;
    }

    /**
     * _check_winner: scan the eight lines in order; the first whose cells are
     * equal names the winner and ends the game; with no such line, a full
     * board and no winner yet, the game ends in a tie.
     */
    method CheckWinner()
      requires Valid()
      modifies this
      ensures Valid()
      ensures (winner, isFinish, status) == Referee(board, opponent, old(winner), old(isFinish), old(status))
      ensures board == old(board) && movesHistory == old(movesHistory)
      ensures bot == old(bot) && opponent == old(opponent)
    {
      var j := 0;
      while j < 8
        invariant 0 <= j <= 8
        invariant forall j' :: 0 <= j' < j ==> !LineEqual(board, j')
        invariant unchanged(this)
      {
        var l := LineAt(j);
        if board[l.0] == board[l.1] == board[l.2] {
          FirstLineAt(board, 0, j);
          WinnerIsMark(board);
          winner := Some(board[l.0]);
          isFinish := true;
          status := if winner == Some(Mark(opponent)) then Win else Lose;
          return;
        }
        j := j + 1;
      }
      if AllMarked(board) && winner.None? {
        isFinish := true;
        status := Tie;
      }
    }

    /**
     * input_move: once the status is not IN_PROGRESS it is returned and
     * nothing changes. Otherwise a token naming a free cell puts the
     * opponent's mark there and is appended to the history; any other token
     * sets INVALID_MOVE and changes nothing else.
     */
    method InputMove(move: string) returns (s: GameStatus)
      requires Valid()
      modifies this
      ensures Valid() && s == status
      ensures bot == old(bot) && opponent == old(opponent)
      ensures old(status) != InProgress ==> unchanged(this)
      ensures old(status) == InProgress && Playable(old(board), move) ==>
        board == old(board)[ParseMove(move).value := Mark(opponent)] &&
        movesHistory == old(movesHistory) + [move] &&
        (winner, isFinish, status) == Referee(board, opponent, old(winner), old(isFinish), old(status))
      ensures old(status) == InProgress && !Playable(old(board), move) ==>
        status == InvalidMove && board == old(board) && movesHistory == old(movesHistory) &&
        winner == old(winner) && isFinish == old(isFinish)
    {
      if status != InProgress {
        return status;
      }
      var index := ParseMove(move);
      if index.Some? {
        var ok := MakeMove(index.value, opponent);
        if ok {
          movesHistory := movesHistory + [move];
          return status;
        }
      }
      status := InvalidMove;
      return status;
    }

    /** reset_board: an empty board, no winner, IN_PROGRESS and no history; the marks stay. */
    method ResetBoard()
      requires Valid()
      modifies this
      ensures Valid()
      ensures board == InitialBoard() && winner.None? && !isFinish && status == InProgress
      ensures movesHistory == [] && bot == old(bot) && opponent == old(opponent)
    {
      board := InitialBoard();
      winner := None;
      isFinish := false;
      status := InProgress;
      movesHistory := [];
    }

    /**
     * calculate_score: ten points per move in the history, plus 50 for a
     * win, 20 for a tie and nothing otherwise.
     */
    function CalculateScore(): (score: int)
      reads this
      ensures score >= 10 * |movesHistory|
      ensures score - 10 * |movesHistory| == 50 <==> status == Win
      ensures score - 10 * |movesHistory| == 20 <==> status == Tie
      ensures score == 10 * |movesHistory| <==> status != Win && status != Tie
    {
      var bonus := if status == Win then 50 else if status == Tie then 20 else 0;
      |movesHistory| * 10 + bonus
    }

    /**
     * The loops that write a position list onto the board: 1 becomes an X,
     * 0 an O, and a cell of -1 keeps what it held. On a reset board the
     * result is the board of the list.
     */
    method PlaceMarks(p: seq<int>)
      requires Valid() && IsPositions(p)
      modifies this
      ensures Valid()
      ensures |board| == 9
      ensures forall i :: 0 <= i < 9 ==> board[i] == if p[i] == -1 then old(board)[i] else BoardOf(p)[i]
      ensures old(board) == InitialBoard() ==> board == BoardOf(p)
      ensures winner == old(winner) && isFinish == old(isFinish) && status == old(status)
      ensures movesHistory == old(movesHistory) && bot == old(bot) && opponent == old(opponent)
    {
      var i := 0;
      while i < 9
        invariant 0 <= i <= 9 && Valid()
        invariant forall k :: 0 <= k < 9 ==> board[k] == if k < i && p[k] != -1 then BoardOf(p)[k] else old(board)[k]
        invariant winner == old(winner) && isFinish == old(isFinish) && status == old(status)
        invariant movesHistory == old(movesHistory) && bot == old(bot) && opponent == old(opponent)
      {
        if p[i] == 1 {
          board := board[i := Mark(X)];
        } else if p[i] == 0 {
          board := board[i := Mark(O)];
        }
        i := i + 1;
      }
      if old(board) == InitialBoard() {
        assert forall k :: 0 <= k < 9 ==> board[k] == BoardOf(p)[k];
      }
    }

    /**
     * get_random_state: a reset board carrying a shuffle of three X's, three
     * O's and three empty cells, returned as a 3x3 matrix.
     */
    method GetRandomState(rolls: seq<nat>, blankRoll: nat) returns (matrix: seq<seq<int>>)
      requires Valid() && |rolls| >= 9
      modifies this
      ensures Valid() && |matrix| == 3
      ensures IsPositions(Flat(matrix)) && matrix == Rows(Flat(matrix))
      ensures Count(Flat(matrix), 1) == 3 && Count(Flat(matrix), 0) == 3 && Count(Flat(matrix), -1) == 3
      ensures board == BoardOf(Flat(matrix))
      ensures winner.None? && !isFinish && status == InProgress && movesHistory == []
      ensures bot == old(bot) && opponent == old(opponent)
    {
      ResetBoard();
      var positions := [1, 0, -1];
      var population := positions + positions + positions;
      var state := Sample(population, rolls);
      PopulationCounts(positions, population);
      ThreeOfEach(state);
      if -1 !in state {
        state := Blank(state, blankRoll);
      }
      PlaceMarks(state);
      matrix := Rows(state);
      RowsFlatten(state);
    }

    /**
     * get_rule_state: attempt after attempt, draw an X count of one to five
     * and an O count equal to it or one less, skip totals of nine or more,
     * shuffle that many X's and O's among nine cells, write them on the board
     * and start over if the referee ends the game; otherwise return the
     * matrix and the labels of the empty cells.
     */
    method GetRuleState(draws: seq<RuleDraw>) returns (r: Option<RuleState>)
      requires Valid() && forall a :: 0 <= a < |draws| ==> RuleDrawOk(draws[a])
      modifies this
      ensures Valid() && winner.None? && !isFinish && status == InProgress && movesHistory == []
      ensures bot == old(bot) && opponent == old(opponent)
      ensures r.Some? ==> |r.value.boardState| == 3 && RuleStateOk(Flat(r.value.boardState), r.value)
      ensures r.Some? ==> board == BoardOf(Flat(r.value.boardState))
      ensures r.None? ==> board == InitialBoard()
    {
      ResetBoard();
      var a := 0;
      while a < |draws|
        invariant 0 <= a <= |draws| && Valid()
        invariant board == InitialBoard() && winner.None? && !isFinish && status == InProgress
        invariant movesHistory == [] && bot == old(bot) && opponent == old(opponent)
      {
        var d := draws[a];
        a := a + 1;
        var xCount := 1 + d.xRoll % 5;
        var oCount := if d.sameCount then xCount else xCount - 1;
        if oCount < 0 {
          oCount := 0;
        }
        if xCount + oCount >= 9 {
          continue;
        }
        var positions := RuleLayout(xCount, oCount, d.shuffleRolls);
        PlaceMarks(positions);
        CheckWinner();
        if isFinish {
          ResetBoard();
          continue;
        }
        var moves := EmptyLabels(positions);
        r := Some(RuleState(Rows(positions), moves));
        RuleStateFrom(positions, xCount, oCount, r.value);
        return;
      }
      r := None;
    }

    /**
     * get_rule_state_optimal: up to a thousand attempts, each on a reset
     * board, to build a board where the attacker wins by one move; the first
     * board the referee does not end is returned with the winning move, the
     * other empty cells and an explanation. Should every attempt fail, a rule
     * state stands in, its first empty label taken as the move.
     */
    method GetRuleStateOptimal(draws: seq<OptimalDraw>, fallback: seq<RuleDraw>) returns (r: Option<Fixture>)
      requires Valid() && |draws| == MaxAttempts
      requires forall a :: 0 <= a < |draws| ==> OptimalDrawOk(draws[a])
      requires forall a :: 0 <= a < |fallback| ==> RuleDrawOk(fallback[a])
      modifies this
      ensures Valid() && movesHistory == [] && bot == old(bot) && opponent == old(opponent)
      ensures r.Some? ==> winner.None? && !isFinish && status == InProgress
      ensures r.None? ==> board == InitialBoard() && winner.None? && !isFinish && status == InProgress
      ensures r.Some? ==> |r.value.boardState| == 3 && IsPositions(Flat(r.value.boardState))
      ensures r.Some? ==> board == BoardOf(Flat(r.value.boardState))
      ensures r.Some? ==>
        (exists a :: OptimalFixtureOk(Flat(r.value.boardState), a, r.value)) ||
        FallbackFixtureOk(Flat(r.value.boardState), r.value)
    {
      ResetBoard();
      var attempt := 0;
      while attempt < MaxAttempts
        invariant 0 <= attempt <= MaxAttempts && Valid()
        invariant movesHistory == [] && bot == old(bot) && opponent == old(opponent)
      {
        ResetBoard();
        var c := OptimalAttempt(draws[attempt]);
        attempt := attempt + 1;
        if c.None? {
          continue;
        }
        var cand := c.value;
        PlaceMarks(cand.positions);
        CheckWinner();
        if isFinish {
          continue;
        }
        var f := OptimalFixture(cand);
        r := Some(f);
        RowsFlatten(cand.positions);
        return;
      }
      var rs := GetRuleState(fallback);
      if rs.None? {
        return None;
      }
      var moves := rs.value.validMovements;
      r := Some(Fixture(rs.value.boardState, moves[0], moves[1..], NoStrategy));
      assert [moves[0]] + moves[1..] == moves;
    }
  }

  /** A shuffle of nine values holding three each of 1, 0 and -1 holds three of each. */
  lemma ThreeOfEach(state: seq<int>)
    requires |state| == 9 && multiset(state) == multiset{1, 1, 1, 0, 0, 0, -1, -1, -1}
    ensures IsPositions(state) && -1 in state
    ensures Count(state, 1) == 3 && Count(state, 0) == 3 && Count(state, -1) == 3
  {
    forall i | 0 <= i < 9
      ensures state[i] == 1 || state[i] == 0 || state[i] == -1
    {
      assert state[i] in multiset(state);
    }
    assert -1 in multiset(state);
  }

  /** positions * 3 holds three each of 1, 0 and -1. */
  lemma PopulationCounts(positions: seq<int>, population: seq<int>)
    requires positions == [1, 0, -1] && population == positions + positions + positions
    ensures multiset(population) == multiset{1, 1, 1, 0, 0, 0, -1, -1, -1}
  {
    assert multiset(positions) == multiset{1, 0, -1};
  }

  /** Steps of one get_rule_state attempt before the board is written: the list, shuffled. */
  method RuleLayout(x: int, o: int, rolls: seq<nat>) returns (p: seq<int>)
    requires 1 <= x <= 5 && 0 <= o && x + o < 9 && |rolls| == 8
    ensures IsPositions(p)
    ensures Count(p, 1) == x && Count(p, 0) == o && Count(p, -1) == 9 - x - o
  {
    var layout := Layout(x, o);
    p := Shuffle(layout, rolls);
    ShuffledPositions(layout, p);
  }

  /** A list with the drawn counts that the referee left running makes a sound rule state. */
  lemma RuleStateFrom(p: seq<int>, x: int, o: int, rs: RuleState)
    requires IsPositions(p) && 1 <= x <= 5 && (o == x || o == x - 1) && x + o < 9
    requires Count(p, 1) == x && Count(p, 0) == o && Count(p, -1) == 9 - x - o
    requires Classify(BoardOf(p)) != Draw && !Classify(BoardOf(p)).Won?
    requires rs == RuleState(Rows(p), LabelsOf(IndicesOf(p, -1, 0)))
    ensures RuleStateOk(p, rs) && Flat(rs.boardState) == p
  {
    IndicesOfAll(p, -1);
    RowsFlatten(p);
  }

  /**
   * Step six of an attempt (lines 249-273): the label of the optimal cell,
   * the labels of the other empty cells and the explanation.
   */
  method OptimalFixture(c: Candidate) returns (f: Fixture)
    requires SoundCandidate(c) && c.empties == IndicesOf(c.positions, -1, 0)
    ensures OptimalFixtureOk(c.positions, c.attacker, f) && f.boardState == Rows(c.positions)
    ensures f.explanation == Explanation(f.optimalMove, PatternName(c.pattern), c.attacker)
  {
    var p := c.positions;
    var moves := SuboptimalMoves(c.empties, c.optimal);
    var optimalMove := Label(c.optimal);
    f := Fixture(Rows(p), optimalMove, moves, Explanation(optimalMove, PatternName(c.pattern), c.attacker));
    FixtureFacts(c, f);
  }

  /** The facts behind an optimal-move fixture built from a sound candidate. */
  lemma FixtureFacts(c: Candidate, f: Fixture)
    requires SoundCandidate(c)
    requires f.boardState == Rows(c.positions) && f.optimalMove == Label(c.optimal)
    requires f.suboptimalMoves == LabelsOf(Except(IndicesOf(c.positions, -1, 0), c.optimal))
    requires f.explanation == Explanation(f.optimalMove, PatternName(c.pattern), c.attacker)
    ensures OptimalFixtureOk(c.positions, c.attacker, f)
  {
    LabelParses(c.optimal);
    WinsExactly(c);
    CandidateOngoing(c);
    SuboptimalCount(c);
    assert Complete(c.positions[c.optimal := Piece(c.attacker)], c.pattern, Piece(c.attacker));
  }

  lemma WinsExactly(c: Candidate)
    requires SoundCandidate(c)
    ensures forall e :: 0 <= e < 9 ==> (Wins(c.positions, e, Piece(c.attacker)) <==> e == c.optimal)
  {
    forall e | 0 <= e < 9
      ensures Wins(c.positions, e, Piece(c.attacker)) <==> e == c.optimal
    {
      OnlyWinningCell(c, e);
    }
  }

  /** Leaving the optimal cell out of the empty cells leaves at least one. */
  lemma SuboptimalCount(c: Candidate)
    requires SoundCandidate(c)
    ensures |Except(IndicesOf(c.positions, -1, 0), c.optimal)| == Count(c.positions, -1) - 1 >= 1
  {
    var p := c.positions;
    var empties := IndicesOf(p, -1, 0);
    IndicesOfAll(p, -1);
    IndicesOfMembers(p, -1, 0);
    IndicesOfAscending(p, -1, 0);
    assert Distinct(empties);
    ExceptLength(empties, c.optimal);
  }

  /**
   * ai_move with the minimax choice as a parameter: on a game not over, the
   * bot's mark goes on the chosen cell if it is free, and the move is
   * reported as the cell's label.
   */
  method AiMove(logic: TicTacToeLogic, moveIndex: int) returns (r: Option<string>)
    requires logic.Valid() && 0 <= moveIndex < 9
    modifies logic
    ensures logic.Valid()
    ensures r.Some? <==> !old(logic.isFinish) && !old(logic.board)[moveIndex].Mark?
    ensures r.Some? ==> r.value == Label(moveIndex) && ParseMove(r.value) == Some(moveIndex)
    ensures r.Some? ==> logic.board == old(logic.board)[moveIndex := Mark(logic.bot)]
    ensures r.Some? ==>
      (logic.winner, logic.isFinish, logic.status) ==
      Referee(logic.board, logic.opponent, old(logic.winner), old(logic.isFinish), old(logic.status))
    ensures r.None? ==>
      logic.board == old(logic.board) && logic.winner == old(logic.winner) &&
      logic.isFinish == old(logic.isFinish) && logic.status == old(logic.status)
    ensures logic.movesHistory == old(logic.movesHistory)
    ensures logic.bot == old(logic.bot) && logic.opponent == old(logic.opponent)
  {
    if logic.isFinish {
      return None;
    }
    var ok := logic.MakeMove(moveIndex, logic.bot);
    if ok {
      AiMoveLabelIsLabel(moveIndex);
      LabelParses(moveIndex);
      return Some(AiMoveLabel(moveIndex));
    }
    return None;
  }

  /** The valid movements are the labels of exactly the empty cells. */
  lemma {:induction false} ValidMovementsExact(p: seq<int>, rs: RuleState, i: int)
    requires RuleStateOk(p, rs) && 0 <= i < 9
    ensures Label(i) in rs.validMovements <==> p[i] == -1
  {
    IndicesOfMembers(p, -1, 0);
    LabelsOfMembers(IndicesOf(p, -1, 0), i);
  }

  /** The suboptimal moves are the labels of exactly the empty cells other than the optimal one. */
  lemma {:induction false} SuboptimalExact(p: seq<int>, attacker: Player, f: Fixture, i: int)
    requires OptimalFixtureOk(p, attacker, f) && 0 <= i < 9
    ensures Label(i) in f.suboptimalMoves <==> p[i] == -1 && Label(i) != f.optimalMove
  {
    var k := ParseMove(f.optimalMove).value;
    IndicesOfMembers(p, -1, 0);
    LabelsOfMembers(Except(IndicesOf(p, -1, 0), k), i);
    LabelInjective(i, k);
  }
}
