/**
 * The board generators' pure steps: the random draws they consume, the
 * defender placement loop of the optimal-move generator with its undo, one
 * attempt of that generator, and the labels and text of the fixtures they
 * return. The steps that write the game's own board live in Logic.
 */
module Generators {
  import opened Wrappers
  import opened Board
  import opened Notation
  import opened Positions
  import opened RandomModel

  /**
   * The draws of one attempt of get_rule_state: randint(1, 5) for the X count,
   * choice([True, False]) for "as many O's as X's", and the shuffle's draws.
   */
  datatype RuleDraw = RuleDraw(xRoll: nat, sameCount: bool, shuffleRolls: seq<nat>)

  predicate RuleDrawOk(d: RuleDraw) { |d.shuffleRolls| == 8 }

  /**
   * The draws of one attempt of get_rule_state_optimal: choice(win_patterns),
   * choice([1, 0]) for the attacker, the shuffle of the pattern's three cells,
   * randint(1, 3) for the defender count, and the shuffle of the six cells
   * still available to the defender.
   */
  datatype OptimalDraw = OptimalDraw(
    patternRoll: nat, attacker: Player, patternRolls: seq<nat>,
    defenderRoll: nat, availableRolls: seq<nat>)

  predicate OptimalDrawOk(d: OptimalDraw) { |d.patternRolls| == 2 && |d.availableRolls| == 5 }

  /** [1] * x + [0] * o + [-1] * (9 - x - o): the list before it is shuffled. */
  function Layout(x: nat, o: nat): (p: seq<int>)
    requires x + o <= 9
    ensures IsPositions(p)
    ensures Count(p, 1) == x && Count(p, 0) == o && Count(p, -1) == 9 - x - o
  {
    var p := Repeat(1, x) + Repeat(0, o) + Repeat(-1, 9 - x - o);
    RepeatCount(1, x, 1); RepeatCount(1, x, 0); RepeatCount(1, x, -1);
    RepeatCount(0, o, 1); RepeatCount(0, o, 0); RepeatCount(0, o, -1);
    RepeatCount(-1, 9 - x - o, 1); RepeatCount(-1, 9 - x - o, 0); RepeatCount(-1, 9 - x - o, -1);
    p
  }

  /** A shuffled list holds the same values as the list it came from. */
  lemma ShuffledPositions(p: seq<int>, q: seq<int>)
    requires IsPositions(p) && |q| == 9 && multiset(q) == multiset(p)
    ensures IsPositions(q)
  {
    forall i | 0 <= i < 9
      ensures q[i] == 1 || q[i] == 0 || q[i] == -1
    {
      assert q[i] in multiset(q);
    }
  }

  /** The empty cells other than skip, ascending (the available_positions list). */
  function CellsExcept(p: seq<int>, skip: int): (r: seq<int>)
    requires IsPositions(p)
  {
    Except(IndicesOf(p, -1, 0), skip)
  }

  /**
   * The defender loop (lines 205-225): visit the shuffled available cells,
   * stop once enough defenders stand, place a defender and take it back at
   * once if it gives the defender two in a line with the third cell empty.
   * Because every kept placement leaves no such threat, the defender never
   * completes a line, and the first placement is always kept.
   */
  method PlaceDefenders(p0: seq<int>, order: seq<int>, def: int, wanted: int)
    returns (p: seq<int>, placed: int)
    requires IsPositions(p0) && (def == 0 || def == 1) && wanted >= 0
    requires Distinct(order)
    requires forall c :: c in order ==> 0 <= c < 9 && p0[c] == -1
    requires Safe(p0, def)
    ensures IsPositions(p) && 0 <= placed <= wanted
    ensures forall i :: 0 <= i < 9 ==> p[i] == p0[i] || (p0[i] == -1 && p[i] == def && i in order)
    ensures Safe(p, def)
    ensures Count(p, def) == Count(p0, def) + placed
    ensures Count(p, -1) == Count(p0, -1) - placed
    ensures (|order| >= 1 && wanted >= 1 && forall i :: 0 <= i < 9 ==> p0[i] != def) ==> placed >= 1
  {
    p, placed := p0, 0;
    var k := 0;
    while k < |order|
      invariant 0 <= k <= |order| && IsPositions(p) && 0 <= placed <= wanted
      invariant forall i :: 0 <= i < 9 ==> p[i] == p0[i] || (p0[i] == -1 && p[i] == def && i in order[..k])
      invariant Safe(p, def)
      invariant Count(p, def) == Count(p0, def) + placed
      invariant Count(p, -1) == Count(p0, -1) - placed
      invariant placed == 0 ==> p == p0
      invariant (k >= 1 && wanted >= 1 && forall i :: 0 <= i < 9 ==> p0[i] != def) ==> placed >= 1
    {
      if placed >= wanted {
        break;
      }
      var pos := order[k];
      assert pos in order;
      assert order[k] !in order[..k];
      var before := p;
      p := p[pos := def];
      PlacementKeepsNoLine(before, pos, def);
      var threat := HasThreat(p, def);
      if threat {
        p := p[pos := -1];
        assert p == before;
      } else {
        placed := placed + 1;
      }
      k := k + 1;
    }
  }

  /**
   * A cell placed where the defender had no threat cannot complete one of the
   * defender's lines; and on a list with no defender, a single placement
   * makes no threat.
   */
  lemma PlacementKeepsNoLine(p: seq<int>, pos: int, def: int)
    requires IsPositions(p) && 0 <= pos < 9 && p[pos] == -1 && (def == 0 || def == 1)
    requires Safe(p, def)
    ensures NoLine(p[pos := def], def)
    ensures (forall i :: 0 <= i < 9 ==> p[i] != def) ==> !Threatened(p[pos := def], def)
  {
    var q := p[pos := def];
    forall j | 0 <= j < 8
      ensures !Complete(q, j, def)
    {
      assert !Threat(p, j, def) && !Complete(p, j, def);
    }
  }

  /** A candidate board of the optimal-move generator with its bookkeeping. */
  datatype Candidate = Candidate(
    positions: seq<int>, optimal: int, pattern: int, attacker: Player, empties: seq<int>)

  /**
   * What an attempt guarantees: the optimal cell is empty and the other two
   * cells of the chosen line, and no other cell, hold the attacker's mark; the
   * defender has no threat and no line; one to three defenders stand (at most
   * two when X attacks) beside the attacker's two; at least four cells stay
   * empty, so the check for two empty cells always passes.
   */
  ghost predicate SoundCandidate(c: Candidate)
  {
    var p, att := c.positions, Piece(c.attacker);
    AttackerShape(p, c.optimal, c.pattern, att) && Safe(p, 1 - att) &&
    Count(p, att) == 2 &&
    1 <= Count(p, 1 - att) <= (if c.attacker == X then 2 else 3) &&
    Count(p, -1) >= 4
  }

  /**
   * The optimal cell is an empty cell of the pattern and the attacker's mark
   * stands on the pattern's other two cells and nowhere else.
   */
  ghost predicate AttackerShape(p: seq<int>, optimal: int, pattern: int, att: int)
  {
    IsPositions(p) && 0 <= pattern < 8 && 0 <= optimal < 9 &&
    OnLine(optimal, pattern) && p[optimal] == -1 &&
    forall i :: 0 <= i < 9 ==> (p[i] == att <==> OnLine(i, pattern) && i != optimal)
  }

  /**
   * One attempt of get_rule_state_optimal up to its checks (lines 164-234).
   * Every check that could send the source on to its next attempt passes:
   * the attempt always yields a candidate.
   */
  method OptimalAttempt(d: OptimalDraw) returns (r: Option<Candidate>)
    requires OptimalDrawOk(d)
    ensures r.Some? && SoundCandidate(r.value)
    ensures r.value.attacker == d.attacker && r.value.pattern == d.patternRoll % 8
    ensures r.value.empties == IndicesOf(r.value.positions, -1, 0)
  {
    var positions, optimal, pattern := PlaceAttacker(d);
    r := AddDefenders(positions, optimal, pattern, d);
  }

  /** The attacker's two marks are down and nothing else: the state after steps one and two. */
  ghost predicate AttackerLayout(p: seq<int>, optimal: int, pattern: int, attacker: Player)
  {
    AttackerShape(p, optimal, pattern, Piece(attacker)) &&
    (forall i :: 0 <= i < 9 ==> p[i] != 1 - Piece(attacker)) &&
    Count(p, -1) == 7 && Count(p, 1 - Piece(attacker)) == 0
  }

  /**
   * Steps three and four of an attempt (lines 186-234): fix the defender
   * count, place defenders on the shuffled available cells and check that
   * enough of them stand and enough cells stay empty.
   */
  method AddDefenders(p0: seq<int>, optimal: int, pattern: int, d: OptimalDraw) returns (r: Option<Candidate>)
    requires OptimalDrawOk(d) && AttackerLayout(p0, optimal, pattern, d.attacker)
    ensures r.Some? && SoundCandidate(r.value)
    ensures r.value.attacker == d.attacker && r.value.pattern == pattern
    ensures r.value.empties == IndicesOf(r.value.positions, -1, 0)
  {
    var defender := 1 - Piece(d.attacker);
    var defenderCount := 1 + d.defenderRoll % 3;
    var attackerCount := 2;
    if d.attacker == O {
      if defenderCount < attackerCount {
        defenderCount := attackerCount;
      }
    } else {
      if defenderCount > attackerCount {
        defenderCount := attackerCount;
      }
    }

    var available := AvailableCells(p0, optimal);
    if |available| < defenderCount {
      return None;
    }

    var order := Shuffle(available, d.availableRolls);
    ShuffledMembers(available, order);
    NoDefenderYet(p0, defender);
    var positions, placed := PlaceDefenders(p0, order, defender, defenderCount);
    if placed < 1 {
      return None;
    }

    var empties := IndicesOf(positions, -1, 0);
    IndicesOfAll(positions, -1);
    assert |empties| >= 2;
    if |empties| < 2 {
      return None;
    }
    r := Some(Candidate(positions, optimal, pattern, d.attacker, empties));
    CandidateFromPlacement(p0, positions, pattern, optimal, d.attacker, order, placed, defenderCount);
  }

  /**
   * Steps one and two of an attempt (lines 172-182): pick a line and an
   * attacker, shuffle the line's cells, keep the first empty as the optimal
   * cell and put the attacker's mark on the other two.
   */
  method PlaceAttacker(d: OptimalDraw) returns (p: seq<int>, optimal: int, pattern: int)
    requires OptimalDrawOk(d)
    ensures pattern == d.patternRoll % 8 && AttackerLayout(p, optimal, pattern, d.attacker)
  {
    p := Repeat(-1, 9);
    pattern := d.patternRoll % 8;
    var line := LineAt(pattern);
    var attacker := Piece(d.attacker);
    assert Distinct([line.0, line.1, line.2]);
    var cells := Shuffle([line.0, line.1, line.2], d.patternRolls);
    PatternCells(pattern, cells);
    optimal := cells[0];
    p := p[cells[1] := attacker][cells[2] := attacker];
    AttackerSetup(pattern, cells, d.attacker, p);
  }

  /** The shuffled pattern holds the three cells of the line, each once. */
  lemma PatternCells(j: int, cells: seq<int>)
    requires 0 <= j < 8 && |cells| == 3 && Distinct(cells)
    requires multiset(cells) == multiset([LineAt(j).0, LineAt(j).1, LineAt(j).2])
    ensures forall i :: OnLine(i, j) <==> i == cells[0] || i == cells[1] || i == cells[2]
    ensures 0 <= cells[0] < 9 && 0 <= cells[1] < 9 && 0 <= cells[2] < 9
  {
    var l := LineAt(j);
    assert cells[0] in multiset(cells) && cells[1] in multiset(cells) && cells[2] in multiset(cells);
    assert l.0 in multiset(cells) && l.1 in multiset(cells) && l.2 in multiset(cells);
  }

  /** The list after the attacker's two marks are written. */
  lemma AttackerSetup(j: int, cells: seq<int>, attacker: Player, p: seq<int>)
    requires 0 <= j < 8 && |cells| == 3 && Distinct(cells)
    requires forall i :: OnLine(i, j) <==> i == cells[0] || i == cells[1] || i == cells[2]
    requires 0 <= cells[0] < 9 && 0 <= cells[1] < 9 && 0 <= cells[2] < 9
    requires p == Repeat(-1, 9)[cells[1] := Piece(attacker)][cells[2] := Piece(attacker)]
    ensures AttackerLayout(p, cells[0], j, attacker)
  {
    TwoMarksCount(cells[1], cells[2], Piece(attacker));
    assert forall i :: 0 <= i < 9 ==> p[i] == (if i == cells[1] || i == cells[2] then Piece(attacker) else -1);
  }

  /** Two marks of one kind written on an empty list leave seven cells empty and none of the other kind. */
  lemma TwoMarksCount(a: int, b: int, att: int)
    requires 0 <= a < 9 && 0 <= b < 9 && a != b && (att == 0 || att == 1)
    ensures Count(Repeat(-1, 9)[a := att][b := att], -1) == 7
    ensures Count(Repeat(-1, 9)[a := att][b := att], 1 - att) == 0
  {
    var q := Repeat(-1, 9);
    RepeatCount(-1, 9, -1);
    RepeatCount(-1, 9, 1 - att);
    UpdateCount(q, a, att, -1);
    UpdateCount(q, a, att, 1 - att);
    UpdateCount(q[a := att], b, att, -1);
    UpdateCount(q[a := att], b, att, 1 - att);
  }

  /**
   * The available_positions list (lines 195-196): the empty cells other than
   * the optimal one. With seven empty cells, one of them the optimal cell,
   * there are six.
   */
  method AvailableCells(p: seq<int>, optimal: int) returns (cells: seq<int>)
    requires IsPositions(p) && 0 <= optimal < 9 && p[optimal] == -1 && Count(p, -1) == 7
    ensures |cells| == 6 && Distinct(cells)
    ensures forall c :: c in cells ==> 0 <= c < 9 && p[c] == -1 && c != optimal
  {
    cells := CellsExcept(p, optimal);
    var e := IndicesOf(p, -1, 0);
    IndicesOfAll(p, -1);
    IndicesOfMembers(p, -1, 0);
    IndicesOfAscending(p, -1, 0);
    assert Distinct(e);
    ExceptDistinct(e, optimal);
    ExceptLength(e, optimal);
  }

  /** Shuffling keeps the members of a list. */
  lemma ShuffledMembers(s: seq<int>, r: seq<int>)
    requires multiset(r) == multiset(s)
    ensures forall c :: c in r <==> c in s
  {
    forall c
      ensures c in r <==> c in s
    {
      assert c in r <==> c in multiset(r);
      assert c in s <==> c in multiset(s);
    }
  }

  /** What the defender loop leaves behind is a sound candidate. */
  lemma CandidateFromPlacement(p0: seq<int>, p: seq<int>, pattern: int, optimal: int, attacker: Player,
                               order: seq<int>, placed: int, wanted: int)
    requires AttackerShape(p0, optimal, pattern, Piece(attacker)) && optimal !in order
    requires IsPositions(p)
    requires forall i :: 0 <= i < 9 ==> p[i] == p0[i] || (p0[i] == -1 && p[i] == 1 - Piece(attacker) && i in order)
    requires Safe(p, 1 - Piece(attacker))
    requires Count(p, 1 - Piece(attacker)) == placed && Count(p, -1) == 7 - placed
    requires 1 <= placed <= wanted <= (if attacker == X then 2 else 3)
    ensures forall e :: SoundCandidate(Candidate(p, optimal, pattern, attacker, e))
  {
    var att := Piece(attacker);
    AttackerCount(p, 1 - att, placed);
    assert p[optimal] == -1;
    forall i | 0 <= i < 9
      ensures p[i] == att <==> OnLine(i, pattern) && i != optimal
    {
      assert p[i] == att <==> p0[i] == att;
    }
  }

  /** With `placed` defenders and 7 - placed empty cells, the attacker holds the other two cells. */
  lemma AttackerCount(p: seq<int>, def: int, placed: int)
    requires IsPositions(p) && (def == 0 || def == 1)
    requires Count(p, def) == placed && Count(p, -1) == 7 - placed
    ensures Count(p, 1 - def) == 2
  {
    CountsTotal(p);
  }

  /** With only the attacker's two marks down, the defender has nothing. */
  lemma NoDefenderYet(p: seq<int>, def: int)
    requires IsPositions(p) && forall i :: 0 <= i < 9 ==> p[i] != def
    ensures Safe(p, def)
  {
  }

  /**
   * The optimal cell is the only cell where the attacker wins at once: the
   * attacker has exactly two marks, and two cells share at most one line.
   */
  lemma {:induction false} OnlyWinningCell(c: Candidate, k: int)
    requires SoundCandidate(c) && 0 <= k < 9
    ensures Wins(c.positions, k, Piece(c.attacker)) <==> k == c.optimal
  {
    var p, att := c.positions, Piece(c.attacker);
    if k == c.optimal {
      assert Complete(p[k := att], c.pattern, att);
    }
    if Wins(p, k, att) {
      var j :| 0 <= j < 8 && OnLine(k, j) && Complete(p[k := att], j, att);
      var l := LineAt(j);
      var u, w := if k == l.0 then l.1 else l.0, if k == l.2 then l.1 else l.2;
      assert u != w && u != k && w != k;
      assert p[u] == att && p[w] == att;
      LinesMeetOnce(u, w, j, c.pattern);
    }
  }

  /** The attacker has no filled line: the only line holding two of its marks is the pattern, whose third cell is empty. */
  lemma {:induction false} AttackerNoLine(c: Candidate)
    requires SoundCandidate(c)
    ensures NoLine(c.positions, Piece(c.attacker))
  {
    var p, att := c.positions, Piece(c.attacker);
    forall j | 0 <= j < 8
      ensures !Complete(p, j, att)
    {
      var l := LineAt(j);
      if p[l.0] == att && p[l.1] == att {
        LinesMeetOnce(l.0, l.1, j, c.pattern);
      }
    }
  }

  /** A candidate board is not over: no line is filled and the optimal cell is empty. */
  lemma {:induction false} CandidateOngoing(c: Candidate)
    requires SoundCandidate(c)
    ensures Classify(BoardOf(c.positions)) == Ongoing
  {
    var p, att := c.positions, Piece(c.attacker);
    BoardOfLines(p);
    AttackerNoLine(c);
    assert !BoardOf(p)[c.optimal].Mark?;
  }

  /** Every item of the list is a cell index. */
  predicate InBoard(cells: seq<int>)
  {
    forall m :: 0 <= m < |cells| ==> 0 <= cells[m] < 9
  }

  /** The labels of a list of cells, in order. */
  function LabelsOf(cells: seq<int>): (s: seq<string>)
    requires InBoard(cells)
    ensures |s| == |cells| && forall m :: 0 <= m < |cells| ==> s[m] == Label(cells[m])
  {
    if cells == [] then [] else [Label(cells[0])] + LabelsOf(cells[1..])
  }

  lemma LabelsOfCons(c: int, cells: seq<int>)
    requires 0 <= c < 9 && InBoard(cells)
    ensures LabelsOf([c] + cells) == [Label(c)] + LabelsOf(cells)
  {
    assert ([c] + cells)[1..] == cells;
  }

  /** A cell's label is in a list of labels exactly when the cell is in the list of cells. */
  lemma LabelsOfMembers(cells: seq<int>, e: int)
    requires InBoard(cells)
    requires 0 <= e < 9
    ensures Label(e) in LabelsOf(cells) <==> e in cells
  {
    if Label(e) in LabelsOf(cells) {
      var m :| 0 <= m < |cells| && LabelsOf(cells)[m] == Label(e);
      LabelInjective(cells[m], e);
    }
  }

  /** The valid_movements loop (lines 120-127): the label of every empty cell, ascending. */
  method EmptyLabels(p: seq<int>) returns (moves: seq<string>)
    requires IsPositions(p)
    ensures moves == LabelsOf(IndicesOf(p, -1, 0))
  {
    moves := [];
    var i := 0;
    while i < 9
      invariant 0 <= i <= 9
      invariant moves + LabelsOf(IndicesOf(p, -1, i)) == LabelsOf(IndicesOf(p, -1, 0))
    {
      if p[i] == -1 {
        var rest := IndicesOf(p, -1, i + 1);
        assert IndicesOf(p, -1, i) == [i] + rest;
        LabelsOfCons(i, rest);
        AppendAssoc(moves, [Label(i)], LabelsOf(rest));
        moves := moves + [Label(i)];
      }
      i := i + 1;
    }
  }

  lemma AppendAssoc<T>(a: seq<T>, b: seq<T>, c: seq<T>)
    ensures a + b + c == a + (b + c)
  {
  }

  /** The list without x. */
  function Except(s: seq<int>, x: int): (r: seq<int>)
    ensures forall y :: y in r <==> y in s && y != x
    ensures |r| <= |s|
    ensures InBoard(s) ==> InBoard(r)
  {
    if s == [] then []
    else if s[0] == x then Except(s[1..], x)
    else [s[0]] + Except(s[1..], x)
  }

  /** Leaving a value out keeps an ascending list ascending. */
  lemma {:induction false} ExceptAscending(s: seq<int>, x: int)
    requires Ascending(s)
    ensures Ascending(Except(s, x))
  {
    if s != [] {
      var t := s[1..];
      assert Ascending(t);
      ExceptAscending(t, x);
      if s[0] != x {
        forall m | 0 <= m < |t|
          ensures s[0] < t[m]
        {
          assert t[m] == s[m + 1];
        }
        ConsAscending(s[0], Except(t, x));
      }
    }
  }

  /** An ascending list stays ascending behind a value below all its members. */
  lemma ConsAscending(h: int, e: seq<int>)
    requires Ascending(e) && forall y :: y in e ==> h < y
    ensures Ascending([h] + e)
  {
    forall a, b | 0 <= a < b < |[h] + e|
      ensures ([h] + e)[a] < ([h] + e)[b]
    {
      assert ([h] + e)[b] == e[b - 1] && e[b - 1] in e;
      if a > 0 {
        assert ([h] + e)[a] == e[a - 1];
      }
    }
  }

  /** Leaving a value out keeps a list free of repeats. */
  lemma {:induction false} ExceptDistinct(s: seq<int>, x: int)
    requires Distinct(s)
    ensures Distinct(Except(s, x))
  {
    if s != [] {
      assert Distinct(s[1..]);
      ExceptDistinct(s[1..], x);
      assert s[0] !in s[1..];
    }
  }

  /** Without a value it holds once, a list is one shorter. */
  lemma {:induction false} ExceptLength(s: seq<int>, x: int)
    requires Distinct(s) && x in s
    ensures |Except(s, x)| == |s| - 1
  {
    if s[0] != x {
      assert Distinct(s[1..]);
      ExceptLength(s[1..], x);
    } else {
      assert x !in s[1..];
      ExceptNotIn(s[1..], x);
    }
  }

  lemma {:induction false} ExceptNotIn(s: seq<int>, x: int)
    requires x !in s
    ensures Except(s, x) == s
  {
    if s != [] {
      ExceptNotIn(s[1..], x);
    }
  }

  /** The suboptimal_moves loop (lines 254-258): the labels of the empty cells other than the optimal one. */
  method SuboptimalMoves(empties: seq<int>, optimal: int) returns (moves: seq<string>)
    requires InBoard(empties)
    ensures moves == LabelsOf(Except(empties, optimal))
  {
    moves := [];
    var m := 0;
    while m < |empties|
      invariant 0 <= m <= |empties|
      invariant moves + LabelsOf(Except(empties[m..], optimal)) == LabelsOf(Except(empties, optimal))
    {
      var rest := Except(empties[m + 1..], optimal);
      ExceptCons(empties[m], empties[m + 1..], optimal);
      assert empties[m..] == [empties[m]] + empties[m + 1..];
      if empties[m] != optimal {
        LabelsOfCons(empties[m], rest);
        AppendAssoc(moves, [Label(empties[m])], LabelsOf(rest));
        moves := moves + [Label(empties[m])];
      }
      m := m + 1;
    }
    assert empties[|empties|..] == [];
  }

  lemma ExceptCons(c: int, s: seq<int>, x: int)
    ensures Except([c] + s, x) == if c == x then Except(s, x) else [c] + Except(s, x)
  {
    assert ([c] + s)[1..] == s;
  }

  /**
   * The names of the lines used in the explanation: a row is named by the
   * letter and a column by the digit that every cell on it carries in its
   * label.
   */
  function PatternName(j: int): (name: string)
    requires 0 <= j < 8
    ensures j < 3 ==> forall i :: 0 <= i < 9 && OnLine(i, j) ==> name == "row " + [Label(i)[0]]
    ensures 3 <= j < 6 ==> forall i :: 0 <= i < 9 && OnLine(i, j) ==> name == "column " + [Label(i)[1]]
    ensures j == 6 ==> OnLine(0, j) && OnLine(8, j) && name == "main diagonal"
    ensures j == 7 ==> OnLine(2, j) && OnLine(6, j) && name == "anti-diagonal"
  {
    ["row A", "row B", "row C", "column 1", "column 2", "column 3", "main diagonal", "anti-diagonal"][j]
  }

  /**
   * The explanation of an optimal move: it opens with the move, names the
   * line and the attacker's mark, and is never the fallback's text.
   */
  function Explanation(move: string, lineName: string, attacker: Player): (s: string)
    ensures |s| == 56 + |move| + |lineName|
    ensures s[..8] == "Playing " && s[8..8 + |move|] == move
    ensures s[8 + |move|..19 + |move|] == " completes " && s[19 + |move|..19 + |move| + |lineName|] == lineName
    ensures s[|s| - 25] == (if attacker == X then 'X' else 'O')
    ensures s != NoStrategy
  {
    "Playing " + move + " completes " + lineName + " with three " +
    (if attacker == X then "X" else "O") + "'s, winning immediately."
  }

  const NoStrategy: string := "No optimal strategy found."

  /** What get_rule_state returns: the 3x3 matrix and the labels of the empty cells. */
  datatype RuleState = RuleState(boardState: seq<seq<int>>, validMovements: seq<string>)

  /** What get_rule_state_optimal returns. */
  datatype Fixture = Fixture(
    boardState: seq<seq<int>>, optimalMove: string, suboptimalMoves: seq<string>, explanation: string)

  /**
   * A rule-state board: one to five X's, as many O's or one fewer, fewer than
   * nine pieces, no filled line and a free cell, returned as rows with the
   * labels of its empty cells in ascending order.
   */
  ghost predicate RuleStateOk(p: seq<int>, rs: RuleState)
  {
    IsPositions(p) && rs.boardState == Rows(p) &&
    1 <= Count(p, 1) <= 5 && (Count(p, 0) == Count(p, 1) || Count(p, 0) == Count(p, 1) - 1) &&
    Count(p, 1) + Count(p, 0) < 9 &&
    Classify(BoardOf(p)) == Ongoing &&
    rs.validMovements == LabelsOf(IndicesOf(p, -1, 0)) && |rs.validMovements| >= 1
  }

  /**
   * An optimal-move fixture: the move is the label of the only cell where the
   * attacker wins at once; the defender has neither a line nor a threat; the
   * attacker has two pieces and the defender one to three; the board is not
   * over; the suboptimal moves are the labels of every other
   * empty cell, ascending, and there is at least one; the explanation is the
   * text naming the move, a line the move completes and the attacker.
   */
  ghost predicate OptimalFixtureOk(p: seq<int>, attacker: Player, f: Fixture)
  {
    IsPositions(p) && f.boardState == Rows(p) &&
    ParseMove(f.optimalMove).Some? &&
    var k := ParseMove(f.optimalMove).value;
    f.optimalMove == Label(k) &&
    (forall e :: 0 <= e < 9 ==> (Wins(p, e, Piece(attacker)) <==> e == k)) &&
    Safe(p, 1 - Piece(attacker)) &&
    Count(p, Piece(attacker)) == 2 && 1 <= Count(p, 1 - Piece(attacker)) <= 3 &&
    Classify(BoardOf(p)) == Ongoing &&
    f.suboptimalMoves == LabelsOf(Except(IndicesOf(p, -1, 0), k)) &&
    |f.suboptimalMoves| >= 1 &&
    f.explanation != NoStrategy &&
    exists j :: 0 <= j < 8 && OnLine(k, j) && Complete(p[k := Piece(attacker)], j, Piece(attacker)) &&
                f.explanation == Explanation(f.optimalMove, PatternName(j), attacker)
  }

  /** The fallback fixture: a rule state whose first empty label stands in for the move. */
  ghost predicate FallbackFixtureOk(p: seq<int>, f: Fixture)
  {
    f.explanation == NoStrategy &&
    RuleStateOk(p, RuleState(f.boardState, [f.optimalMove] + f.suboptimalMoves))
  }
}
