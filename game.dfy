/**
 * The live game: a `GameState` whose board is updated in place one move at
 * a time, the turn that reads lines of input until one is a legal move, the
 * scan of the winning lines over the live board, and the game loop that
 * stops on a win, or else on a full board.
 *
 * Standard input is modelled as a sequence of already parsed lines: `None`
 * for a line that is not a number, `Some(n)` for one that is.
 */
module Game {
  import opened Rules

  /** How a game ends. `InputExhausted` means the supplied lines ran out before the game ended. */
  datatype Outcome = Won(winner: char) | Draw | InputExhausted

  class GameState {
    var board: array<Option<char>>
    var currentPlayer: char

    ghost predicate Valid()
      reads this
    {
      board.Length == 9 && IsPlayer(currentPlayer)
    }

    /** A new game: nine empty squares and 'X' to move. */
    constructor ()
      ensures Valid() && fresh(board)
      ensures board[..] == EmptyBoard() && currentPlayer == 'X'
    {
      board := new Option<char>[9](_ => None);
      currentPlayer := 'X';
    }

    /**
     * One turn: read lines of `input` until one is a legal move, mark that
     * square for the player to move, then hand the turn to the other
     * player. Lines that are rejected change nothing. Returns whether a move
     * was made and how many lines were read.
     */
    method PlayTurn(input: seq<Option<nat>>) returns (accepted: bool, consumed: nat)
      requires Valid()
      modifies this`currentPlayer, board
      ensures Valid() && board == old(board)
      ensures consumed <= |input|
      ensures forall i :: 0 <= i < consumed && !(accepted && i == consumed - 1) ==> !Accepts(old(board[..]), input[i])
      ensures accepted ==>
        && 0 < consumed
        && Accepts(old(board[..]), input[consumed - 1])
        && board[..] == Place(old(board[..]), input[consumed - 1].value, old(currentPlayer))
        && currentPlayer == Toggle(old(currentPlayer))
      ensures accepted && Balanced(old(board[..]), old(currentPlayer)) ==> Balanced(board[..], currentPlayer)
      ensures !accepted ==>
        && consumed == |input|
        && board[..] == old(board[..])
        && currentPlayer == old(currentPlayer)
    {
      accepted := false;
      consumed := 0;
      while consumed < |input|
        invariant consumed <= |input|
        invariant board[..] == old(board[..])
        invariant forall i :: 0 <= i < consumed ==> !Accepts(old(board[..]), input[i])
      {
        var line := input[consumed];
        consumed := consumed + 1;
        if line.Some? {
          var position := line.value;
          if 1 <= position <= 9 && board[position - 1].None? {
            board[position - 1] := Some(currentPlayer);
            accepted := true;
            break;
          }
        }
      }
      if accepted {
        if Balanced(old(board[..]), old(currentPlayer)) {
          MovePreservesBalance(old(board[..]), input[consumed - 1].value, currentPlayer);
        }
        currentPlayer := Toggle(currentPlayer);
      }
    }

    /** Scan the table of lines in order and report the first one held by a single player. */
    method CheckWinner() returns (w: Option<char>)
      requires Valid()
      ensures w == Winner(board[..])
    {
      var k := 0;
      while k < |Lines|
        invariant k <= |Lines|
        invariant NoneComplete(board[..], 0, k)
      {
        var (x, y, z) := Lines[k];
        if board[x].Some? && board[y].Some? && board[z].Some? {
          var a, b, c := board[x].value, board[y].value, board[z].value;
          if a == b && b == c {
            assert Completes(board[..], Lines[k], a);
            return Some(a);
          }
        }
        k := k + 1;
      }
      return None;
    }
  }

  /** The player who makes move number `turns + 1`: 'X' makes the odd-numbered moves. */
  function Mover(turns: nat): (c: char)
    ensures IsPlayer(c)
  {
    if turns % 2 == 0 then 'X' else 'O'
  }

  /** The turn passes from one player to the other after every move. */
  lemma MoverAlternates(turns: nat)
    ensures Mover(turns + 1) == Toggle(Mover(turns))
  {
  }

  /**
   * What holds of the board after `turns` moves of a game that has not
   * ended: each move filled one square, the two players alternated from
   * 'X', and nobody has won.
   */
  ghost predicate InPlay(b: seq<Option<char>>, turns: nat) {
    && |b| == 9
    && Count(b, None) == 9 - turns
    && Count(b, Some('X')) == (turns + 1) / 2
    && Count(b, Some('O')) == turns / 2
    && Winner(b) == None
  }

  /** A legal move by the player to move continues alternating play, and can only make that player win. */
  lemma MoveKeepsAlternation(b: seq<Option<char>>, turns: nat, p: nat)
    requires InPlay(b, turns) && Accepts(b, Some(p))
    ensures var b' := Place(b, p, Mover(turns));
      && Count(b', None) == 9 - (turns + 1)
      && Count(b', Some('X')) == (turns + 2) / 2
      && Count(b', Some('O')) == (turns + 1) / 2
      && (Winner(b') == None || Winner(b') == Some(Mover(turns)))
  {
    PlaceFillsOneSquare(b, p, Mover(turns));
    WinnerAfterMove(b, p, Mover(turns));
  }

  /**
   * The game the loop plays on the lines `input`, from board `b` after
   * `turns` moves: lines that are not legal moves are skipped; a legal move
   * is made by the player due, and the game ends on the first move that
   * wins, or else on the first move that fills the board. The result is the
   * outcome, the number of moves made and the final board.
   */
  function Play(b: seq<Option<char>>, turns: nat, input: seq<Option<nat>>): (Outcome, nat, seq<Option<char>>)
    requires |b| == 9
    decreases |input|
  {
    if input == [] then (InputExhausted, turns, b)
    else if !Accepts(b, input[0]) then Play(b, turns, input[1..])
    else
      var b' := Place(b, input[0].value, Mover(turns));
      match Winner(b')
      case Some(w) => (Won(w), turns + 1, b')
      case None => if IsFull(b') then (Draw, turns + 1, b') else Play(b', turns + 1, input[1..])
  }

  /** Lines that are not legal moves on the current board leave the game to the lines after them. */
  lemma {:induction false} SkipRejected(b: seq<Option<char>>, turns: nat, input: seq<Option<nat>>, k: nat)
    requires |b| == 9 && k <= |input|
    requires forall i :: 0 <= i < k ==> !Accepts(b, input[i])
    ensures Play(b, turns, input) == Play(b, turns, input[k..])
  {
    if k > 0 {
      assert input[1..][k - 1..] == input[k..];
      SkipRejected(b, turns, input[1..], k - 1);
    }
  }

  /**
   * How a game that was in play after `turns` moves may end: within 9
   * moves in all, with the counts of empty squares, 'X' and 'O' marks
   * fixed by the number of moves; a win for the player who moved last and
   * who holds a line; a draw only on a full board without a winner; and
   * running out of lines only on a board that is neither full nor won.
   */
  ghost predicate EndsByRules(r: (Outcome, nat, seq<Option<char>>), turns: nat) {
    var (outcome, n, final) := r;
    && turns <= n <= 9 && |final| == 9
    && Count(final, None) == 9 - n
    && Count(final, Some('X')) == (n + 1) / 2 && Count(final, Some('O')) == n / 2
    && (outcome.Won? ==> n > 0 && Winner(final) == Some(outcome.winner) && outcome.winner == Mover(n - 1))
    && (outcome.Draw? ==> IsFull(final) && Winner(final) == None)
    && (outcome.InputExhausted? ==> !IsFull(final) && Winner(final) == None)
  }

  /**
   * A legal move by the player due either ends the game by the rules, with
   * a win or a draw, or leaves a game still in play after one more move.
   */
  lemma MoveEndsOrContinues(b: seq<Option<char>>, turns: nat, p: nat)
    requires InPlay(b, turns) && turns < 9 && Accepts(b, Some(p))
    ensures var b' := Place(b, p, Mover(turns));
      match Winner(b')
      case Some(w) => EndsByRules((Won(w), turns + 1, b'), turns)
      case None =>
        if IsFull(b') then EndsByRules((Draw, turns + 1, b'), turns)
        else InPlay(b', turns + 1) && turns + 1 < 9
  {
    MoveKeepsAlternation(b, turns, p);
  }

  /** Whatever the input, a game in play ends by the rules of alternating play. */
  lemma {:induction false} PlayFollowsRules(b: seq<Option<char>>, turns: nat, input: seq<Option<nat>>)
    requires InPlay(b, turns) && turns < 9
    ensures EndsByRules(Play(b, turns, input), turns)
    decreases |input|
  {
    if input == [] {
    } else if !Accepts(b, input[0]) {
      PlayFollowsRules(b, turns, input[1..]);
    } else {
      var b' := Place(b, input[0].value, Mover(turns));
      MoveEndsOrContinues(b, turns, input[0].value);
      if Winner(b').None? && !IsFull(b') {
        assert Play(b, turns, input) == Play(b', turns + 1, input[1..]);
        PlayFollowsRules(b', turns + 1, input[1..]);
      }
    }
  }

  /** From a new game, whatever the input, the game ends as the rules of alternating play say. */
  lemma NewGameFollowsRules(input: seq<Option<nat>>)
    ensures EndsByRules(Play(EmptyBoard(), 0, input), 0)
  {
    NewGameStart();
    PlayFollowsRules(EmptyBoard(), 0, input);
  }

  /**
   * The game loop: from a new game, play turns until a move wins, or else
   * fills the board. Returns the outcome, the number of moves made and the
   * final board, which are those of the game `Play` defines on `input`.
   */
  method Run(input: seq<Option<nat>>) returns (outcome: Outcome, turns: nat, final: seq<Option<char>>)
    ensures (outcome, turns, final) == Play(EmptyBoard(), 0, input)
  {
    var game := new GameState();
    var rest := input;
    turns := 0;
    while true
      invariant game.Valid() && fresh(game) && fresh(game.board)
      invariant game.currentPlayer == Mover(turns)
      invariant Play(game.board[..], turns, rest) == Play(EmptyBoard(), 0, input)
      decreases |rest|
    {
      var before := game.board[..];
      var accepted, consumed := game.PlayTurn(rest);
      if !accepted {
        SkipRejected(before, turns, rest, |rest|);
        return InputExhausted, turns, before;
      }
      SkipRejected(before, turns, rest, consumed - 1);
      assert rest[consumed - 1..][1..] == rest[consumed..];
      MoverAlternates(turns);
      rest := rest[consumed..];
      turns := turns + 1;
      var w := game.CheckWinner();
      if w.Some? {
        return Won(w.value), turns, game.board[..];
      }
      var after := game.board[..];
      if IsFull(after) {
        return Draw, turns, after;
      }
    }
  }
}
