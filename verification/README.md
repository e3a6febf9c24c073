# Tic-tac-toe engine: a verified model of `TicTacToeLogic`

This project models the game logic behind the tic-tac-toe environment of a
benchmark for vision-language models, `TicTacToeLogic` in
`playground/games/tictactoe/tictactoe.py`, together with the label formula of
`TicTacToe.ai_move`, and proves what that logic promises.

The engine holds a 3x3 board as a list of nine cells in row-major order. An
empty cell at index `i` holds the number `i + 1` and a taken cell holds `'X'`
or `'O'`. Around the board sit the two players' marks (`bot` and `opponent`),
the referee's fields (`winner`, `is_finish`, `status`) and the list of moves
the player has made.

- `make_move` writes one mark.
- `_check_winner` scans the eight lines in a fixed order.
- `input_move` parses a move token such as `A1` or `1a` and plays it for the
  opponent. Once the status leaves IN_PROGRESS, `input_move` returns it
  unchanged and changes nothing.
- `calculate_score` scores the game.
- `parse_e2e` pulls a `Movement: <token>` answer out of a model's free text.
- Three generators build boards for benchmark items:
  - `get_random_state`: three X's, three O's and three empty cells.
  - `get_rule_state`: a legal, unfinished board with the labels of its empty
    cells.
  - `get_rule_state_optimal`: a board where one side wins in one move. It
    comes with the winning move, the other moves and an explanation.

Modules, in dependency order:

- `Wrappers`: `Option`.
- `Board`: players, cells, the status values, the eight lines and the
  referee as a pure function `Classify`.
- `Notation`: the move-token parser, cell labels and `parse_e2e`.
- `RandomModel`: `random.shuffle` and `random.sample` over explicit draws.
- `Positions`: the generators' working list of nine integers (1 for X, 0 for
  O, -1 for empty) and the line facts they test on it.
- `Generators`: the pure steps of the generators. These are the defender
  placement loop with its undo, one attempt of the optimal-move generator,
  the label loops, and the predicates that state what a returned board
  satisfies.
- `Logic`: the class `TicTacToeLogic`, whose methods change the board and the
  referee's fields in place, and `AiMove`.

Randomness is an input. Each call into Python's `random` module becomes an
explicit natural number, a "draw", and `randbelow(n)` is taken to be
`draw % n`. `shuffle` and `sample` follow CPython's algorithms: Fisher-Yates
from the end, and the pool method. So every outcome the source can produce is
produced by some list of draws.

Facts the proofs establish about the generators:

- Every attempt of `get_rule_state_optimal` passes all of its checks.
  - The first defender placement is never undone, so at least one defender
    stands.
  - At least four cells stay empty.
  - The attacker has no filled line.
  - The defender has neither a filled line nor a threat.
  - So the referee never ends the board.
  - The fallback to `get_rule_state` is unreachable in the source, though the
    model keeps it.
- The optimal cell is the only cell where the attacker wins at once. The
  source never checks this. It follows from the construction: the attacker
  has exactly two marks, and two cells share at most one line.
- The optimal generator does not guarantee turn parity. Fewer defenders than
  drawn may stand, because a placement that gives the defender a threat is
  undone. Nothing here claims X and O alternate.

Points where the code does something a reader might not expect; the model
follows the code:

- The move parser uses `re.match`, which is anchored only at the start of the
  text. So `"A1 please"` is accepted as `A1`, not rejected (`ParseExamples`).
- The docstring of `get_rule_state_optimal` (lines 131-145) asks for a board
  that simulates realistic play, at most three pieces per side, one winning
  move and some other moves. The code places exactly two attacker marks and
  one to three shuffled defenders. It never checks that the winning move is
  unique or that the piece counts follow turn order. Uniqueness and the
  three-piece bound hold anyway and are proved; turn order is not claimed.
- `get_rule_state` retries without a bound (`while True`). The model gives it
  a finite list of per-attempt draws and returns `None` when they run out.
- After INVALID_MOVE, every later `input_move` returns that status and
  changes nothing. The game itself is not frozen: `ai_move` checks only
  `is_finish`, so a bot move can still take a cell, and the referee can still
  end the game and replace the status (`InputMove`, `AiMove`).

## Model

| member | source | states |
|---|---|---|
| Board.InitialBoard | playground/games/tictactoe/tictactoe.py:20 | a fresh board is well formed and has no marks |
| Board.LineAt | playground/games/tictactoe/tictactoe.py:44-45 | the eight lines are increasing triples of cell indices, in the referee's order |
| Board.LinesMeetOnce | playground/games/tictactoe/tictactoe.py:44-45 | two different cells lie together on at most one line |
| Board.FirstLine | playground/games/tictactoe/tictactoe.py:46-51 | the scan from a line index returns the first equal line at or after it, or none when no later line is equal |
| Board.FirstLineAt | playground/games/tictactoe/tictactoe.py:46-51 | a scan that meets no equal line before `j` and an equal line at `j` stops at `j` |
| Board.Classify | playground/games/tictactoe/tictactoe.py:43-54 | a win names the value of the first equal line in scan order; there is no win exactly when no line is equal; a draw exactly when no line is equal and every cell is a mark |
| Board.ClassifyFirstRow | playground/games/tictactoe/tictactoe.py:46-51 | with X's on row A and O's on row B, the scan meets row A first and X is named |
| Board.WinnerIsMark | playground/games/tictactoe/tictactoe.py:47-48 | on a well-formed board only lines of marks are equal, so the winner is always a mark |
| Notation.ParseMove | playground/games/tictactoe/tictactoe.py:59-66 | a token is accepted exactly when its first two characters are a row letter and a column digit in either order; the index is below nine |
| Notation.Label | playground/games/tictactoe/tictactoe.py:121-126 | a label is an upper-case row letter followed by a column digit |
| Notation.LabelParses | playground/games/tictactoe/tictactoe.py:59-66 | parsing the label of a cell gives back that cell (row*3+col) |
| Notation.LabelInjective | playground/games/tictactoe/tictactoe.py:121-126 | different cells have different labels |
| Notation.AiMoveLabelIsLabel | playground/games/tictactoe/tictactoe.py:385 | the label formula of `ai_move` agrees with the generators' label on every cell |
| Notation.EitherOrder | playground/games/tictactoe/tictactoe.py:61-65 | letter-first and digit-first tokens, and either case, name the same cell |
| Notation.ParseExamples | playground/games/tictactoe/tictactoe.py:59-66 | `A1` and `1a` give 0, `C3` gives 8, `b2` gives 4, `A1 please` gives 0; `D1`, `A` and `a4` are rejected |
| Notation.Normalize | playground/games/tictactoe/tictactoe.py:298-300 | the token's two characters are kept, upper-cased and possibly swapped, and only a token of two digits still starts with a digit |
| Notation.NormalizeIsLabel | playground/games/tictactoe/tictactoe.py:298-300 | upper-casing and swapping a digit-first token yields the canonical label of the cell it names |
| Notation.SkipSpaces | playground/games/tictactoe/tictactoe.py:295 | `\s*` consumes the longest run of whitespace |
| Notation.Search | playground/games/tictactoe/tictactoe.py:295-296 | the search returns the leftmost position where `Movement:` followed by a token matches, or none when no position matches |
| Notation.ParseE2E | playground/games/tictactoe/tictactoe.py:293-302 | a move is returned exactly when some position matches; it is the canonical upper-case, letter-first label of the token after the leftmost match; otherwise INVALID_MOVE |
| Notation.E2EDigitFirst | playground/games/tictactoe/tictactoe.py:297-301 | `Movement: 2b` gives `B2` |
| Notation.E2ENoLabel | playground/games/tictactoe/tictactoe.py:295-302 | a bare token without the `Movement:` label gives INVALID_MOVE |
| RandomModel.Shuffle | playground/games/tictactoe/tictactoe.py:109 | `random.shuffle` returns a permutation of its input: same length, same multiset, still free of repeats |
| RandomModel.Sample | playground/games/tictactoe/tictactoe.py:86 | `random.sample` of the whole population returns a permutation of it |
| Positions.BoardOf | playground/games/tictactoe/tictactoe.py:110-114 | writing a list onto a reset board puts an X exactly at the 1s, an O exactly at the 0s and marks nowhere else |
| Positions.Rows | playground/games/tictactoe/tictactoe.py:119 | the returned matrix has three rows of three whose cell (r, c) is item 3r+c of the list |
| Positions.RowsFlatten | playground/games/tictactoe/tictactoe.py:119 | reading the matrix back row by row gives the list |
| Positions.CountOn | playground/games/tictactoe/tictactoe.py:215-216 | the per-line count is between 0 and 3 and is 3 exactly when the line is filled |
| Positions.CountOnCounts | playground/games/tictactoe/tictactoe.py:215-217 | the per-line count is the number of the line's three cells holding the value, the count that the `== 2` threat test reads |
| Positions.HasThreat | playground/games/tictactoe/tictactoe.py:213-220 | the threat scan reports a threat exactly when some line holds two of the mark and one empty cell |
| Positions.BoardOfLines | playground/games/tictactoe/tictactoe.py:47 | on a written board a line is equal exactly when the list fills it with 1s or with 0s, and the board is full exactly when the list has no -1 |
| Positions.CountsTotal | playground/games/tictactoe/tictactoe.py:232-234 | the counts of 1s, 0s and -1s in a position list add up to its length, so two attacker pieces, the defenders and the empty cells fill the board |
| Positions.RepeatCount | playground/games/tictactoe/tictactoe.py:100 | `[v] * n` holds n copies of v and nothing else |
| Positions.IndicesOf | playground/games/tictactoe/tictactoe.py:232 | the comprehension lists only indices whose cell holds the value |
| Positions.IndicesOfMembers | playground/games/tictactoe/tictactoe.py:232 | every index whose cell holds the value is listed |
| Positions.IndicesOfAscending | playground/games/tictactoe/tictactoe.py:232 | the indices are listed in ascending order |
| Positions.IndicesOfCount | playground/games/tictactoe/tictactoe.py:232 | there are as many indices as cells holding the value |
| Positions.IndicesOfAll | playground/games/tictactoe/tictactoe.py:232-233 | the list of empty cells is as long as the count of empty cells |
| Generators.Layout | playground/games/tictactoe/tictactoe.py:100-108 | the list before the shuffle holds exactly x 1s, o 0s and 9-x-o -1s |
| Generators.ShuffledPositions | playground/games/tictactoe/tictactoe.py:109 | a shuffled position list is still a position list |
| Generators.PlaceDefenders | playground/games/tictactoe/tictactoe.py:202-225 | the loop only writes the defender on cells of the order; it places at most the wanted number; the defender ends with neither a filled line nor a threat; the counts move by the number placed; the first placement is always kept |
| Generators.PlacementKeepsNoLine | playground/games/tictactoe/tictactoe.py:210-223 | a placement where the defender had no threat completes no defender line, and the first defender makes no threat |
| Generators.OptimalAttempt | playground/games/tictactoe/tictactoe.py:164-234 | every attempt passes all of its checks and yields a sound candidate with the drawn attacker and line |
| Generators.PlaceAttacker | playground/games/tictactoe/tictactoe.py:165-177 | after steps one and two, the attacker's two marks stand on the chosen line beside the empty optimal cell and nothing else is on the board |
| Generators.AddDefenders | playground/games/tictactoe/tictactoe.py:181-234 | the defender count is clamped as the source does; enough cells are available; at least one defender stands; at least four cells stay empty; the list of empty cells is kept for the suboptimal moves; the result is a sound candidate |
| Generators.PatternCells | playground/games/tictactoe/tictactoe.py:173-175 | the shuffled line cells are the line's three cells, so the optimal cell lies on the line |
| Generators.AttackerSetup | playground/games/tictactoe/tictactoe.py:176-177 | two attacker marks on the line beside the optimal cell leave seven empty cells and no defender |
| Generators.TwoMarksCount | playground/games/tictactoe/tictactoe.py:176-177 | two writes onto an empty list leave seven -1s and no other mark |
| Generators.AvailableCells | playground/games/tictactoe/tictactoe.py:195-196 | the available cells are six distinct empty cells other than the optimal one |
| Generators.ShuffledMembers | playground/games/tictactoe/tictactoe.py:203 | shuffling keeps the members of the available list |
| Generators.CandidateFromPlacement | playground/games/tictactoe/tictactoe.py:205-234 | what the defender loop leaves behind is a sound candidate |
| Generators.AttackerCount | playground/games/tictactoe/tictactoe.py:176-177 | with the defenders placed and seven minus that many empty cells, the attacker holds exactly two cells, as the docstring's at-most-three bound needs |
| Generators.ConsAscending | playground/games/tictactoe/tictactoe.py:254-256 | a value below every member of an ascending list keeps it ascending when put in front |
| Generators.NoDefenderYet | playground/games/tictactoe/tictactoe.py:179-180 | with no defender on the board the defender has neither a line nor a threat |
| Generators.OnlyWinningCell | playground/games/tictactoe/tictactoe.py:172-177 | on a candidate the attacker wins at once by playing a cell exactly when it is the optimal cell |
| Generators.AttackerNoLine | playground/games/tictactoe/tictactoe.py:243-246 | the attacker has no filled line on a candidate |
| Generators.CandidateOngoing | playground/games/tictactoe/tictactoe.py:243-246 | the referee never ends a candidate board, so the `is_finish` check never fires |
| Generators.LabelsOf | playground/games/tictactoe/tictactoe.py:123-127 | the labels of a list of cells, item by item |
| Generators.LabelsOfMembers | playground/games/tictactoe/tictactoe.py:123-127 | a cell's label is listed exactly when the cell is |
| Generators.EmptyLabels | playground/games/tictactoe/tictactoe.py:120-127 | the valid-movements loop yields the labels of the empty cells in ascending order |
| Generators.Except | playground/games/tictactoe/tictactoe.py:255-256 | leaving a value out keeps exactly the other members |
| Generators.ExceptAscending | playground/games/tictactoe/tictactoe.py:254-256 | leaving a value out of an ascending list leaves it ascending, so the suboptimal cells come in ascending order |
| Generators.ExceptDistinct | playground/games/tictactoe/tictactoe.py:195-196 | leaving a value out of a list without repeats leaves none |
| Generators.ExceptLength | playground/games/tictactoe/tictactoe.py:195-196 | leaving out a value that occurs once makes the list one shorter |
| Generators.SuboptimalMoves | playground/games/tictactoe/tictactoe.py:254-258 | the suboptimal loop yields the labels of the empty cells other than the optimal one, in order |
| Generators.PatternName | playground/games/tictactoe/tictactoe.py:262-272 | a row is named by the letter, and a column by the digit, that every cell on it carries in its label; the diagonals through A1 and through A3 are the main and the anti-diagonal |
| Generators.Explanation | playground/games/tictactoe/tictactoe.py:261-273 | the explanation opens with "Playing" and the move, then "completes" and the line's name, carries the attacker's mark, and never equals the fallback text |
| Logic.Referee | playground/games/tictactoe/tictactoe.py:43-54 | the game ends exactly when it had ended, a line is equal, or the board is full with no winner yet; when a line is equal the winner is the value `Classify` names on the first one, a mark; WIN exactly when it is the opponent's mark, LOSE otherwise; TIE only on a full board with no equal line and no winner; an unfinished board changes nothing |
| Logic.RefereeOutcome | playground/games/tictactoe/tictactoe.py:46-54 | from a running game: WIN exactly when the opponent's mark fills the first equal line, LOSE exactly when the bot's does, TIE exactly when the board is full with no equal line |
| Logic.DrawPlayers | playground/games/tictactoe/tictactoe.py:30 | the two marks drawn are different |
| Logic.TicTacToeLogic.constructor | playground/games/tictactoe/tictactoe.py:18-27 | a fresh game has an empty board, no winner, IN_PROGRESS, no history and the marks dealt |
| Logic.TicTacToeLogic.InitializePlayers | playground/games/tictactoe/tictactoe.py:29-34 | bot and opponent get different marks; the first mark drawn goes to the bot when the player moves first, to the opponent otherwise |
| Logic.TicTacToeLogic.MakeMove | playground/games/tictactoe/tictactoe.py:36-41 | succeeds exactly when the cell holds no mark and the game is not over; then exactly that cell takes the mark and the referee runs; otherwise nothing changes |
| Logic.TicTacToeLogic.CheckWinner | playground/games/tictactoe/tictactoe.py:43-54 | the line scan leaves winner, is_finish and status as the referee function says, and keeps the invariant |
| Logic.TicTacToeLogic.InputMove | playground/games/tictactoe/tictactoe.py:56-71 | a non-IN_PROGRESS status is returned and nothing changes; a token naming a free cell puts the opponent's mark at row*3+col, appends the token and runs the referee; anything else sets INVALID_MOVE and leaves board, history and winner alone |
| Logic.TicTacToeLogic.ResetBoard | playground/games/tictactoe/tictactoe.py:76-81 | an empty board, no winner, IN_PROGRESS, no history; the marks stay |
| Logic.TicTacToeLogic.CalculateScore | playground/games/tictactoe/tictactoe.py:281-291 | the score is ten per move in the history plus 50 exactly for WIN, 20 exactly for TIE, nothing otherwise |
| Logic.TicTacToeLogic.PlaceMarks | playground/games/tictactoe/tictactoe.py:110-114 | 1s become X's, 0s become O's, other cells keep what they held; on a reset board the result is the board of the list |
| Logic.Blank | playground/games/tictactoe/tictactoe.py:87-89 | the repair leaves an empty cell at the drawn index and every other cell as it was, so the list has an empty cell |
| Logic.TicTacToeLogic.GetRandomState | playground/games/tictactoe/tictactoe.py:83-95 | the returned matrix holds three X's, three O's and three empty cells, and the board is its board, IN_PROGRESS with no history |
| Logic.ThreeOfEach | playground/games/tictactoe/tictactoe.py:86-89 | a shuffle of three 1s, 0s and -1s holds three of each, so the no-empty-cell repair never fires |
| Logic.PopulationCounts | playground/games/tictactoe/tictactoe.py:85-86 | `[1, 0, -1] * 3` holds three of each value |
| Logic.RuleLayout | playground/games/tictactoe/tictactoe.py:100-109 | the shuffled layout holds exactly the drawn numbers of X's, O's and empty cells |
| Logic.TicTacToeLogic.GetRuleState | playground/games/tictactoe/tictactoe.py:97-128 | a returned state has 1-5 X's, as many O's or one fewer, fewer than nine pieces, a board the referee leaves running, and the labels of exactly its empty cells in ascending order; the game's board is that board |
| Logic.RuleStateFrom | playground/games/tictactoe/tictactoe.py:115-128 | a drawn layout the referee leaves running makes a sound rule state |
| Logic.ValidMovementsExact | playground/games/tictactoe/tictactoe.py:123-127 | a cell's label is among the valid movements exactly when the cell is empty |
| Logic.TicTacToeLogic.GetRuleStateOptimal | playground/games/tictactoe/tictactoe.py:130-279 | a returned fixture is either an optimal fixture for some attacker (two attacker pieces, one to three defenders, an explanation naming the move, a line it completes and the attacker) or the fallback rule state under "No optimal strategy found."; the game's board is its board; with no fixture the game is left reset, IN_PROGRESS on an empty board |
| Logic.OptimalFixture | playground/games/tictactoe/tictactoe.py:249-273 | the fixture's move is the label of the optimal cell, its only winning cell; the attacker has two pieces and the defender one to three; the defender is safe; the board runs; the suboptimal moves are the other empty labels, at least one; the explanation names the move, the chosen line and the attacker |
| Logic.FixtureFacts | playground/games/tictactoe/tictactoe.py:249-275 | a sound candidate with its labels and explanation is an optimal fixture |
| Logic.WinsExactly | playground/games/tictactoe/tictactoe.py:172-177 | on a candidate the attacker's only immediately winning cell is the optimal one |
| Logic.SuboptimalCount | playground/games/tictactoe/tictactoe.py:232-234 | leaving the optimal cell out of the empty cells leaves one fewer, and at least one |
| Logic.SuboptimalExact | playground/games/tictactoe/tictactoe.py:254-258 | a cell's label is a suboptimal move exactly when the cell is empty and its label is not the optimal move |
| Logic.AiMove | playground/games/tictactoe/tictactoe.py:379-386 | the bot's move succeeds exactly when the game is not over and the chosen cell is free; it then writes the bot's mark there, runs the referee on the new board and reports the cell's label, which parses back to the cell; otherwise nothing changes; the history and both marks are always kept |

## Left out

- The PyQt renderer and the screenshot (`TicTacToeRenderer`, `TicTacToe.get_screenshot`) are user interface only.
- The `Minimax` opponent is not part of this model, because `AI.py` is not among the sources. `AiMove` takes the index it would choose as a parameter.
- The crash in `TicTacToe.__init__` when the player does not move first is left out. There `minimax` is `None`, yet `ai_move` dereferences it.
- The constant `AI_component` is always true, so `AiMove` leaves out its test.
- The game registry, `BaseGame` and `BaseGameLogic` are registration and delegation only. `get_game_status` only reads `status`.
- `configs/` holds static settings. `player_first` is the constructor's `playerFirst` argument.
- The pseudo-random generator is replaced by explicit draws, and `randbelow(n)` is modelled as `draw % n`. The generator's distribution and seeding are not modelled.
- Logic.TicTacToeLogic.GetRuleState: the source's `while True` may retry forever. The model makes one attempt per draw in a finite list and returns `None` when the list runs out.
- Logic.TicTacToeLogic.GetRuleStateOptimal: returns `None` only when the fallback `get_rule_state` runs out of draws. It requires exactly one thousand attempt draws. Its ensures still admits the fallback fixture. `Generators.OptimalAttempt` and `Generators.CandidateOngoing` show that the first attempt always returns an optimal fixture. Tying the method to the first draw would make the fallback code unreachable to the verifier.
- Logic.TicTacToeLogic.MakeMove: requires an index from 0 to 8. Python would also accept negative indices, counting from the end, and would raise on others. No caller passes such an index.
- Logic.TicTacToeLogic.InitializePlayers: requires the fresh-game state the constructor sets up. The constructor is its only caller.
- Notation.ParseE2E: `re.IGNORECASE` is modelled as ASCII case folding of the label `Movement:`. Python's Unicode case-insensitive matching admits no other character for these letters. `\s` is modelled by the code points that `str.isspace` accepts.
- Turn parity of the optimal generator is not claimed, because the code does not guarantee it.
- The player's marks, `bot` and `opponent`, start as `None` in the source before `_initialize_players` runs. The model gives them placeholder marks that are overwritten at once.
