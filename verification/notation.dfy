/**
 * Move notation: a row letter A-C and a column digit 1-3, in either order and
 * either case ("A1", "1a"), names the cell with index row * 3 + column. The
 * canonical label of a cell is upper-case and letter-first.
 */
module Notation {
  import opened Wrappers
  import opened Board

  predicate IsRowChar(c: char) { 'A' <= c <= 'C' || 'a' <= c <= 'c' }

  predicate IsColChar(c: char) { '1' <= c <= '3' }

  /** str.isdigit on the characters a matched token can hold. */
  predicate IsDigit(c: char) { '0' <= c <= '9' }

  /** str.upper on ASCII; other characters are left alone. */
  function Upper(c: char): char
  {
    if 'a' <= c <= 'z' then (c as int - 32) as char else c
  }

  /** The row table {'A': 0, 'B': 1, 'C': 2}, looked up after upper-casing. */
  function RowIndex(c: char): (r: int)
    requires IsRowChar(c)
    ensures 0 <= r < 3
  {
    var u := Upper(c);
    if u == 'A' then 0 else if u == 'B' then 1 else 2
  }

  /** The column table {'1': 0, '2': 1, '3': 2}. */
  function ColIndex(c: char): (r: int)
    requires IsColChar(c)
    ensures 0 <= r < 3
  {
    if c == '1' then 0 else if c == '2' then 1 else 2
  }

  /**
   * The move parser of input_move: the pattern letter-digit, or else
   * digit-letter, must match at the start of the text (only at the start:
   * characters after the first two are ignored).
   */
  function ParseMove(move: string): (r: Option<int>)
    ensures r.Some? <==> (|move| >= 2 &&
      ((IsRowChar(move[0]) && IsColChar(move[1])) || (IsColChar(move[0]) && IsRowChar(move[1]))))
    ensures r.Some? ==> 0 <= r.value < 9
  {
    if |move| >= 2 && IsRowChar(move[0]) && IsColChar(move[1]) then
      Some(RowIndex(move[0]) * 3 + ColIndex(move[1]))
    else if |move| >= 2 && IsColChar(move[0]) && IsRowChar(move[1]) then
      Some(RowIndex(move[1]) * 3 + ColIndex(move[0]))
    else
      None
  }

  /** The label of a cell: the row letter of index / 3, the column digit of index % 3. */
  function Label(i: int): (s: string)
    requires 0 <= i < 9
    ensures |s| == 2 && 'A' <= s[0] <= 'C' && IsColChar(s[1])
  {
    var r, c := i / 3, i % 3;
    [if r == 0 then 'A' else if r == 1 then 'B' else 'C'] +
    [if c == 0 then '1' else if c == 1 then '2' else '3']
  }

  /** The label ai_move reports: chr(65 + index // 3) followed by str(index % 3 + 1). */
  function AiMoveLabel(i: int): string
    requires 0 <= i < 9
  {
    [(65 + i / 3) as char] + [('0' as int + i % 3 + 1) as char]
  }

  /** Parsing a label gives back its cell. */
  lemma LabelParses(i: int)
    requires 0 <= i < 9
    ensures ParseMove(Label(i)) == Some(i)
  {
  }

  /** Different cells have different labels. */
  lemma LabelInjective(i: int, j: int)
    requires 0 <= i < 9 && 0 <= j < 9
    ensures Label(i) == Label(j) <==> i == j
  {
    LabelParses(i);
    LabelParses(j);
  }

  /** The two label formulas of the source agree on every cell. */
  lemma AiMoveLabelIsLabel(i: int)
    requires 0 <= i < 9
    ensures AiMoveLabel(i) == Label(i)
  {
  }

  /** Letter-first and digit-first spellings of a token name the same cell. */
  lemma EitherOrder(l: char, d: char)
    requires IsRowChar(l) && IsColChar(d)
    ensures ParseMove([l, d]) == ParseMove([d, l])
    ensures ParseMove([l, d]) == ParseMove([Upper(l), d])
  {
  }

  lemma ParseExamples()
    ensures ParseMove("A1") == Some(0) && ParseMove("1a") == Some(0)
    ensures ParseMove("C3") == Some(8) && ParseMove("b2") == Some(4)
    ensures ParseMove("A1 please") == Some(0)
    ensures ParseMove("D1") == None && ParseMove("A") == None && ParseMove("a4") == None
  {
  }

  /** The normalisation of parse_e2e: upper-case, then swap a digit-first token. */
  function Normalize(tok: string): (s: string)
    requires |tok| == 2
    ensures |s| == 2 && multiset(s) == multiset{Upper(tok[0]), Upper(tok[1])}
    ensures IsDigit(s[0]) ==> IsDigit(Upper(tok[0])) && IsDigit(Upper(tok[1]))
  {
    var u := [Upper(tok[0]), Upper(tok[1])];
    if IsDigit(u[0]) then [u[1], u[0]] else u
  }

  /** A valid token normalises to the canonical label of the cell it names. */
  lemma NormalizeIsLabel(tok: string)
    requires ParseMove(tok).Some?
    ensures Normalize(tok[..2]) == Label(ParseMove(tok).value)
  {
  }

  /** The whitespace class \s of Python's regular expressions on str. */
  predicate IsSpace(c: char)
  {
    var n := c as int;
    (9 <= n <= 13) || (28 <= n <= 32) || n == 0x85 || n == 0xA0 || n == 0x1680 ||
    (0x2000 <= n <= 0x200A) || n == 0x2028 || n == 0x2029 || n == 0x202F ||
    n == 0x205F || n == 0x3000
  }

  /** ASCII lower-casing, enough to compare against the label `movement:`. */
  function Lower(c: char): char
  {
    if 'A' <= c <= 'Z' then (c as int + 32) as char else c
  }

  const Keyword: string := "movement:"

  /** The label `Movement:`, in any case, starts at position i. */
  predicate KeywordAt(t: string, i: int)
  {
    0 <= i && i + |Keyword| <= |t| && LowerAll(t[i..i + |Keyword|]) == Keyword
  }

  /** ASCII lower-casing of a whole text. */
  function LowerAll(s: string): (r: string)
    ensures |r| == |s|
  {
    if s == [] then [] else [Lower(s[0])] + LowerAll(s[1..])
  }

  lemma {:induction false} LowerAllAt(s: string)
    ensures forall k :: 0 <= k < |s| ==> LowerAll(s)[k] == Lower(s[k])
  {
    if s != [] {
      LowerAllAt(s[1..]);
    }
  }

  /** The first position at or after j that is not whitespace. */
  function SkipSpaces(t: string, j: int): (r: int)
    requires 0 <= j <= |t|
    ensures j <= r <= |t|
    ensures forall k :: j <= k < r ==> IsSpace(t[k])
    ensures r < |t| ==> !IsSpace(t[r])
    decreases |t| - j
  {
    if j < |t| && IsSpace(t[j]) then SkipSpaces(t, j + 1) else j
  }

  /** Where the token after a label at position i begins. */
  function TokenStart(t: string, i: int): int
    requires KeywordAt(t, i)
  {
    SkipSpaces(t, i + |Keyword|)
  }

  /** `Movement:\s*` followed by a token matches at position i. */
  predicate MatchAt(t: string, i: int)
  {
    KeywordAt(t, i) && TokenAt(t, TokenStart(t, i))
  }

  /** A token, letter-digit or digit-letter, starts at position s. */
  predicate TokenAt(t: string, s: int)
  {
    0 <= s && s + 2 <= |t| &&
    ((IsRowChar(t[s]) && IsColChar(t[s + 1])) || (IsColChar(t[s]) && IsRowChar(t[s + 1])))
  }

  /** The leftmost match at or after position i (re.search). */
  function Search(t: string, i: int): (r: Option<int>)
    requires 0 <= i <= |t|
    ensures r.Some? ==> i <= r.value <= |t| && MatchAt(t, r.value)
    ensures r.Some? ==> forall j :: i <= j < r.value ==> !MatchAt(t, j)
    ensures r.None? ==> forall j :: i <= j <= |t| ==> !MatchAt(t, j)
    decreases |t| - i
  {
    if MatchAt(t, i) then Some(i)
    else if i == |t| then None
    else Search(t, i + 1)
  }

  /** What parse_e2e returns: a canonical move, or the INVALID_MOVE status. */
  datatype Parsed = Move(token: string) | Status(status: GameStatus)

  /**
   * parse_e2e: the token after the first `Movement:` label that is followed by
   * a token, upper-cased and letter-first.
   */
  function ParseE2E(t: string): (r: Parsed)
    ensures r.Move? <==> exists i :: 0 <= i <= |t| && MatchAt(t, i)
    ensures r.Move? ==> |r.token| == 2 && 'A' <= r.token[0] <= 'C' && IsColChar(r.token[1])
    ensures r.Move? ==> exists i :: (0 <= i <= |t| && MatchAt(t, i) &&
      (forall j :: 0 <= j < i ==> !MatchAt(t, j)) &&
      r.token == Label(ParseMove(t[TokenStart(t, i)..]).value))
  {
    match Search(t, 0)
    case None => Status(InvalidMove)
    case Some(i) =>
      var s := TokenStart(t, i);
      NormalizeIsLabel(t[s..]);
      assert t[s..][..2] == t[s..s + 2];
      Move(Normalize(t[s..s + 2]))
  }

  lemma E2EDigitFirst()
    ensures ParseE2E("Movement: 2b") == Move("B2")
  {
    var t := "Movement: 2b";
    LowerAllAt(t[0..9]);
    assert KeywordAt(t, 0);
    assert SkipSpaces(t, 10) == 10;
    assert TokenStart(t, 0) == 10;
    assert t[10..] == "2b";
    assert MatchAt(t, 0);
  }

  lemma E2ENoLabel()
    ensures ParseE2E("B2") == Status(InvalidMove)
  {
    var t := "B2";
    assert !KeywordAt(t, 0) && !KeywordAt(t, 1) && !KeywordAt(t, 2);
    assert Search(t, 0) == None;
  }
}
