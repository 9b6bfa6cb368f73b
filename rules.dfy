/**
 * The pure rules of the 3x3 game: the board as a value, the move rule,
 * the player toggle, the rendering symbol of a square and the scan of the
 * fixed table of eight winning lines.
 *
 * A board is a sequence of 9 squares in row-major order: square `i` is in
 * row `i / 3` and column `i % 3`. A square is empty (`None`) or holds the
 * character of the player who marked it.
 */
module Rules {

  datatype Option<T> = None | Some(value: T)

  /** An index of a square on the board. */
  type Cell = i: nat | i < 9

  /** Three squares that win when one player holds all of them. */
  type Line = (Cell, Cell, Cell)

  /** The table of winning lines, in scan order: rows, then columns, then diagonals. */
  const Lines: seq<Line> := [
    (0, 1, 2), (3, 4, 5), (6, 7, 8),
    (0, 3, 6), (1, 4, 7), (2, 5, 8),
    (0, 4, 8), (2, 4, 6)
  ]

  predicate IsPlayer(c: char) {
    c == 'X' || c == 'O'
  }

  /** The board a new game starts from. */
  function EmptyBoard(): seq<Option<char>> {
    seq(9, _ => None)
  }

  // ---------------------------------------------------------------------
  // Players and squares

  /** The player who moves after `c`: 'O' after 'X', 'X' after anything else. */
  function Toggle(c: char): (r: char)
    ensures IsPlayer(r)
    ensures IsPlayer(c) ==> r != c
    ensures c != 'X' ==> r == 'X'
  {
    if c == 'X' then 'O' else 'X'
  }

  /** Toggling twice gives back the player, and only a player survives it. */
  lemma ToggleInvolutive(c: char)
    ensures Toggle(Toggle(c)) == c <==> IsPlayer(c)
  {
  }

  /** The character a square is rendered as: its mark, or a blank. */
  function Symbol(square: Option<char>): (c: char)
    ensures square.Some? ==> c == square.value
    ensures square.None? ==> c == ' '
  {
    match square
    case Some(c) => c
    case None => ' '
  }

  /** On a board holding only the two players' marks, rendering tells every square apart. */
  lemma SymbolDistinguishesSquares(s: Option<char>, t: Option<char>)
    requires s.Some? ==> IsPlayer(s.value)
    requires t.Some? ==> IsPlayer(t.value)
    ensures Symbol(s) == Symbol(t) <==> s == t
  {
  }

  // ---------------------------------------------------------------------
  // Counting squares

  /** The number of squares of `b` equal to `v`. */
  function Count(b: seq<Option<char>>, v: Option<char>): (n: nat)
    ensures n <= |b|
  {
    if b == [] then 0 else (if b[0] == v then 1 else 0) + Count(b[1..], v)
  }

  /** Overwriting one square changes each count by at most the square that left and the one that came. */
  lemma {:induction false} CountUpdate(b: seq<Option<char>>, i: nat, w: Option<char>, v: Option<char>)
    requires i < |b|
    ensures Count(b[i := w], v) == Count(b, v) - (if b[i] == v then 1 else 0) + (if w == v then 1 else 0)
  {
    if i == 0 {
      assert b[i := w][1..] == b[1..];
    } else {
      assert b[i := w][1..] == b[1..][i - 1 := w];
      CountUpdate(b[1..], i - 1, w, v);
    }
  }

  /** The count of a value in a board that holds nothing else is the board's length. */
  lemma {:induction false} CountUniform(b: seq<Option<char>>, v: Option<char>)
    requires forall i :: 0 <= i < |b| ==> b[i] == v
    ensures Count(b, v) == |b|
  {
    if b != [] {
      CountUniform(b[1..], v);
    }
  }

  /** Every square holds a mark; a board is full exactly when no empty square is left. */
  predicate IsFull(b: seq<Option<char>>)
    ensures IsFull(b) <==> Count(b, None) == 0
  {
    FullIffNoEmpty(b);
    forall i :: 0 <= i < |b| ==> b[i].Some?
  }

  /** Every square holds a mark exactly when the count of empty squares is zero. */
  lemma {:induction false} FullIffNoEmpty(b: seq<Option<char>>)
    ensures (forall i :: 0 <= i < |b| ==> b[i].Some?) <==> Count(b, None) == 0
  {
    if b != [] {
      FullIffNoEmpty(b[1..]);
      assert forall i :: 1 <= i < |b| ==> b[i] == b[1..][i - 1];
    }
  }

  // ---------------------------------------------------------------------
  // The move rule

  /**
   * Whether one parsed line of input is a legal move on `b`: it parsed as
   * a number (`None` stands for input that did not), the number is a
   * 1-based position between 1 and 9, and that square is empty.
   */
  predicate Accepts(b: seq<Option<char>>, input: Option<nat>)
    requires |b| == 9
    ensures IsFull(b) ==> !Accepts(b, input)
  {
    input.Some? && 1 <= input.value <= 9 && b[input.value - 1].None?
  }

  /** The board after `player` marks the 1-based position `p`. */
  function Place(b: seq<Option<char>>, p: nat, player: char): (r: seq<Option<char>>)
    requires |b| == 9 && Accepts(b, Some(p))
    ensures |r| == 9
    ensures r[p - 1] == Some(player)
    ensures forall i :: 0 <= i < 9 && i != p - 1 ==> r[i] == b[i]
  {
    b[p - 1 := Some(player)]
  }

  /** A legal move fills exactly one empty square and takes no mark away. */
  lemma PlaceFillsOneSquare(b: seq<Option<char>>, p: nat, player: char)
    requires |b| == 9 && Accepts(b, Some(p))
    ensures Count(Place(b, p, player), None) == Count(b, None) - 1
    ensures Count(Place(b, p, player), Some(player)) == Count(b, Some(player)) + 1
    ensures forall v :: v != None && v != Some(player) ==> Count(Place(b, p, player), v) == Count(b, v)
  {
    CountUpdate(b, p - 1, Some(player), None);
    CountUpdate(b, p - 1, Some(player), Some(player));
    forall v | v != None && v != Some(player)
      ensures Count(Place(b, p, player), v) == Count(b, v)
    {
      CountUpdate(b, p - 1, Some(player), v);
    }
  }

  /**
   * The invariant of alternating play: the board has 9 squares, 'X' has
   * made as many marks as 'O' or one more, and it is 'X' to move exactly
   * when the two counts are equal.
   */
  ghost predicate Balanced(b: seq<Option<char>>, player: char) {
    var x, o := Count(b, Some('X')), Count(b, Some('O'));
    |b| == 9 && IsPlayer(player) && (x == o || x == o + 1) && (player == 'X' <==> x == o)
  }

  /** A new game has nine empty squares, no marks, no winner, and is balanced. */
  lemma NewGameStart()
    ensures Balanced(EmptyBoard(), 'X')
    ensures Count(EmptyBoard(), None) == 9
    ensures Count(EmptyBoard(), Some('X')) == 0 && Count(EmptyBoard(), Some('O')) == 0
    ensures Winner(EmptyBoard()) == None
  {
    var b := EmptyBoard();
    CountUniform(b, None);
    CountZero(b, Some('X'));
    CountZero(b, Some('O'));
  }

  /** A value that appears nowhere is counted zero times. */
  lemma {:induction false} CountZero(b: seq<Option<char>>, v: Option<char>)
    requires forall i :: 0 <= i < |b| ==> b[i] != v
    ensures Count(b, v) == 0
  {
    if b != [] {
      CountZero(b[1..], v);
    }
  }

  /** A legal move by the player to move keeps alternating play balanced. */
  lemma MovePreservesBalance(b: seq<Option<char>>, p: nat, player: char)
    requires Balanced(b, player) && Accepts(b, Some(p))
    ensures Balanced(Place(b, p, player), Toggle(player))
  {
    PlaceFillsOneSquare(b, p, player);
  }

  // ---------------------------------------------------------------------
  // Win detection

  /** `player` holds all three squares of `l`. */
  predicate Completes(b: seq<Option<char>>, l: Line, player: char)
    requires |b| == 9
  {
    b[l.0] == Some(player) && b[l.1] == Some(player) && b[l.2] == Some(player)
  }

  /** No line of the table in positions lo..hi-1 is held entirely by one player. */
  predicate NoneComplete(b: seq<Option<char>>, lo: nat, hi: nat)
    requires |b| == 9 && hi <= |Lines|
  {
    forall j, a :: lo <= j < hi ==> !Completes(b, Lines[j], a)
  }

  /**
   * The scan of the table from position `k` on: the player holding the
   * first line that is held entirely by one player, if there is one.
   */
  function WinnerFrom(b: seq<Option<char>>, k: nat): (r: Option<char>)
    requires |b| == 9 && k <= |Lines|
    ensures r.None? <==> NoneComplete(b, k, |Lines|)
    ensures r.Some? ==> exists i :: k <= i < |Lines| && Completes(b, Lines[i], r.value) && NoneComplete(b, k, i)
    decreases |Lines| - k
  {
    if k == |Lines| then None
    else
      var (x, y, z) := Lines[k];
      if b[x].Some? && b[y].Some? && b[z].Some? && b[x].value == b[y].value && b[y].value == b[z].value
      then
        assert Completes(b, Lines[k], b[x].value);
        Some(b[x].value)
      else
        assert forall a :: !Completes(b, Lines[k], a);
        WinnerFrom(b, k + 1)
  }

  /**
   * The winner the whole table reports: nobody exactly when nobody has
   * three in a row, and otherwise a player who has three in a row.
   */
  function Winner(b: seq<Option<char>>): (r: Option<char>)
    requires |b| == 9
    ensures r == None <==> forall a :: !ThreeInARow(b, a)
    ensures r.Some? ==> ThreeInARow(b, r.value)
  {
    ScanMeansThreeInARow(b);
    WinnerFrom(b, 0)
  }

  /** `player` holds square (r, c), counting rows and columns from 0. */
  predicate Holds(b: seq<Option<char>>, r: nat, c: nat, player: char)
    requires |b| == 9 && r < 3 && c < 3
  {
    b[3 * r + c] == Some(player)
  }

  predicate RowHeld(b: seq<Option<char>>, r: nat, player: char)
    requires |b| == 9 && r < 3
  {
    forall c :: 0 <= c < 3 ==> Holds(b, r, c, player)
  }

  predicate ColumnHeld(b: seq<Option<char>>, c: nat, player: char)
    requires |b| == 9 && c < 3
  {
    forall r :: 0 <= r < 3 ==> Holds(b, r, c, player)
  }

  /**
   * The geometric meaning of a win: `player` holds a whole row, a whole
   * column, the diagonal from top left or the diagonal from top right.
   */
  predicate ThreeInARow(b: seq<Option<char>>, player: char)
    requires |b| == 9
  {
    || (exists r :: 0 <= r < 3 && RowHeld(b, r, player))
    || (exists c :: 0 <= c < 3 && ColumnHeld(b, c, player))
    || (forall r, c :: 0 <= r < 3 && 0 <= c < 3 && r == c ==> Holds(b, r, c, player))
    || (forall r, c :: 0 <= r < 3 && 0 <= c < 3 && r + c == 2 ==> Holds(b, r, c, player))
  }

  /** The table lists exactly the rows, columns and diagonals of the grid. */
  lemma TableIsEveryStraightLine(b: seq<Option<char>>, player: char)
    requires |b| == 9
    ensures ThreeInARow(b, player) <==> exists i :: 0 <= i < |Lines| && Completes(b, Lines[i], player)
  {
    if exists r :: 0 <= r < 3 && RowHeld(b, r, player) {
      var r :| 0 <= r < 3 && RowHeld(b, r, player);
      assert Holds(b, r, 0, player) && Holds(b, r, 1, player) && Holds(b, r, 2, player);
      assert Completes(b, Lines[r], player);
    } else if exists c :: 0 <= c < 3 && ColumnHeld(b, c, player) {
      var c :| 0 <= c < 3 && ColumnHeld(b, c, player);
      assert Holds(b, 0, c, player) && Holds(b, 1, c, player) && Holds(b, 2, c, player);
      assert Completes(b, Lines[3 + c], player);
    } else if forall r, c :: 0 <= r < 3 && 0 <= c < 3 && r == c ==> Holds(b, r, c, player) {
      assert Holds(b, 0, 0, player) && Holds(b, 1, 1, player) && Holds(b, 2, 2, player);
      assert Completes(b, Lines[6], player);
    } else if forall r, c :: 0 <= r < 3 && 0 <= c < 3 && r + c == 2 ==> Holds(b, r, c, player) {
      assert Holds(b, 0, 2, player) && Holds(b, 1, 1, player) && Holds(b, 2, 0, player);
      assert Completes(b, Lines[7], player);
    } else {
      forall i | 0 <= i < |Lines|
        ensures !Completes(b, Lines[i], player)
      {
        if i < 3 {
          assert !RowHeld(b, i, player);
        } else if i < 6 {
          assert !ColumnHeld(b, i - 3, player);
        } else if i == 6 {
          assert !(Holds(b, 0, 0, player) && Holds(b, 1, 1, player) && Holds(b, 2, 2, player));
        } else {
          assert !(Holds(b, 0, 2, player) && Holds(b, 1, 1, player) && Holds(b, 2, 0, player));
        }
      }
    }
  }

  /**
   * The scan reports no winner exactly when nobody has three in a row,
   * and whoever it reports does have three in a row.
   */
  lemma ScanMeansThreeInARow(b: seq<Option<char>>)
    requires |b| == 9
    ensures WinnerFrom(b, 0) == None <==> forall a :: !ThreeInARow(b, a)
    ensures WinnerFrom(b, 0).Some? ==> ThreeInARow(b, WinnerFrom(b, 0).value)
  {
    forall a ensures ThreeInARow(b, a) <==> exists i :: 0 <= i < |Lines| && Completes(b, Lines[i], a) {
      TableIsEveryStraightLine(b, a);
    }
    if WinnerFrom(b, 0).Some? {
      var i :| 0 <= i < |Lines| && Completes(b, Lines[i], WinnerFrom(b, 0).value) && NoneComplete(b, 0, i);
      assert ThreeInARow(b, WinnerFrom(b, 0).value);
    } else {
      assert NoneComplete(b, 0, |Lines|);
    }
  }

  /** On a board of rows only, the scan prefers the upper row. */
  lemma ScanOrderExample()
    ensures Winner([Some('X'), Some('X'), Some('X'), None, None, None, Some('O'), Some('O'), Some('O')]) == Some('X')
  {
  }

  /**
   * A move on a board without a winner can only make the mover win: every
   * line held after the move runs through the square just marked.
   */
  lemma WinnerAfterMove(b: seq<Option<char>>, p: nat, player: char)
    requires |b| == 9 && Accepts(b, Some(p)) && Winner(b) == None
    ensures Winner(Place(b, p, player)) == None || Winner(Place(b, p, player)) == Some(player)
  {
    var b' := Place(b, p, player);
    if Winner(b').Some? {
      var a := Winner(b').value;
      var i :| 0 <= i < |Lines| && Completes(b', Lines[i], a) && NoneComplete(b', 0, i);
      assert !Completes(b, Lines[i], a);
    }
  }
}
