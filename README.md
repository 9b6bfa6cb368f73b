# Tic-tac-toe rules engine in Dafny

This project models the two-player console tic-tac-toe game in `src/main.rs`.
A `GameState` holds a 9-square board, where each square is empty or holds a
player's character, and the player to move, which is `'X'` or `'O'`. A turn
reads lines of input until one names an empty square by its 1-based position.
It marks that square for the player to move and then passes the turn to the
other player. After each turn the game loop scans a fixed table of eight
winning lines: three rows, three columns and two diagonals. It stops on the
first line held by a single player. Otherwise it stops with a draw once every
square is marked.

The project has two modules:

- `Rules` (`rules.dfy`) holds the pure part, on boards as values
  (`seq<Option<char>>`). It has the winning-line table, the scan `WinnerFrom`,
  the move rule (`Accepts`, `Place`), the player toggle, the rendering symbol
  of a square, and the counting facts behind alternation and termination.
- `Game` (`game.dfy`) holds the live game. The class `GameState` keeps its
  board in an `array<Option<char>>` that `PlayTurn` updates in place.
  `CheckWinner` scans the table with an early-returning loop and is proved
  equal to `WinnerFrom`. `Run` is the game loop of `main`. It is proved
  equal to `Play`, a pure definition of the game a sequence of input lines
  produces. The lemmas about `Play` state how every game ends.

Standard input is a parameter: a sequence of lines that have already been
parsed. `None` stands for a line that does not parse as an unsigned integer.
`Some(n)` stands for a line that does.

The scope is exactly what `src/main.rs` does: two human players take turns
at one console. The file has no computer opponent, no difficulty setting
and no way to load or save a board as text, so the model has none either.

## Model

| member | source | states |
|---|---|---|
| `Game.GameState.constructor` | src/main.rs:8-13 | A new game has a board of exactly 9 squares, all empty, with 'X' to move. |
| `Rules.NewGameStart` | src/main.rs:8-13 | The starting board has 9 empty squares, no 'X' or 'O' marks and no winner, and with 'X' to move it satisfies the alternation invariant `Balanced`. |
| `Game.GameState.PlayTurn` | src/main.rs:34-50 | Reads lines in order. Every rejected line (unparsed, outside 1..9, or naming a marked square) leaves the board and the player unchanged. The first accepted line marks exactly square p-1 with the player to move, and then the turn passes to the other player. A balanced state stays balanced. If no line is accepted, nothing changes. |
| `Rules.Place` | src/main.rs:42 | An accepted move puts the mover's mark in square p-1, and the other 8 squares and the length 9 are unchanged. |
| `Rules.PlaceFillsOneSquare` | src/main.rs:40-42 | An accepted move lowers the number of empty squares by exactly one and raises the mover's count by one. It leaves every other count unchanged. |
| `Rules.Toggle` | src/main.rs:49 | The next player is always 'X' or 'O', and differs from the current one when that one is a player. Anything other than 'X' is followed by 'X'. |
| `Rules.ToggleInvolutive` | src/main.rs:49 | Toggling twice gives back the player exactly when it is 'X' or 'O'. |
| `Rules.MovePreservesBalance` | src/main.rs:41-49 | From a state where 'X' has as many marks as 'O' or one more, and 'X' is to move exactly when the counts are equal, an accepted move followed by the toggle keeps that invariant. |
| `Rules.Symbol` | src/main.rs:27-32 | A marked square renders as its mark and an empty square renders as a blank. |
| `Rules.SymbolDistinguishesSquares` | src/main.rs:27-32 | On squares that are empty or hold 'X' or 'O', two squares render the same exactly when they are equal. |
| `Rules.WinnerFrom` | src/main.rs:52-71 | The scan reports no winner exactly when no line of the table is held by one player. When it reports `Some(a)`, line i is held by `a` and no earlier line is held by anyone, so it is the first match in the order rows, columns, diagonals. |
| `Rules.TableIsEveryStraightLine` | src/main.rs:53-57 | A player holds some line of the table exactly when they hold a whole row, a whole column or one of the two diagonals of the 3x3 grid, where square i is at row i/3 and column i%3. |
| `Rules.ScanMeansThreeInARow` | src/main.rs:52-71 | The scan from the first table entry reports no winner exactly when nobody has three in a row, and any player it reports does have three in a row. |
| `Rules.Winner` | src/main.rs:52-71 | The whole-table scan that `check_winner` performs reports nobody exactly when no player has a whole row, column or diagonal. Any player it reports does have one. |
| `Rules.ScanOrderExample` | src/main.rs:59-67 | With the top row held by 'X' and the bottom row held by 'O', the scan reports 'X', because rows are scanned from the top. |
| `Rules.WinnerAfterMove` | src/main.rs:79-81 | On a board without a winner, an accepted move can only produce no winner or the mover as winner. |
| `Game.GameState.CheckWinner` | src/main.rs:52-71 | The early-returning loop over the table returns exactly the winner that `WinnerFrom` specifies. |
| `Rules.FullIffNoEmpty` | src/main.rs:87 | A board has every square marked exactly when its count of empty squares is zero. |
| `Rules.IsFull` | src/main.rs:87 | The full-board test, which requires every square to be marked, holds exactly when no empty square is left. |
| `Rules.Accepts` | src/main.rs:40-41 | A full board accepts no input. The acceptance test is a parsed position from 1 to 9 whose square is empty, so on a full board every line is re-prompted. |
| `Game.SkipRejected` | src/main.rs:35-47 | Lines that are not legal moves on the current board are re-prompted past. The game then proceeds from the lines after them, with board and turn unchanged. |
| `Game.MoveEndsOrContinues` | src/main.rs:79-91 | A legal move by the player due either wins for that player, or draws on a full board without a winner, or leaves a game still in play after one more move with fewer than 9 moves made. |
| `Game.PlayFollowsRules` | src/main.rs:77-92 | From any game in play, whatever the input, the game ends by the rules. Within 9 moves in all, the empty, 'X' and 'O' counts are fixed by the number of moves. A win is reported for the player who moved last and holds a line. A draw is reported only on a full board without a winner. Running out of lines happens only on a board that is neither full nor won. |
| `Game.NewGameFollowsRules` | src/main.rs:74-92 | The same holds for the game played from a new game on any input. |
| `Game.MoveKeepsAlternation` | src/main.rs:77-92 | In a game still in play after t moves, an accepted move by the player due on move t+1 leaves 8-t empty squares, ceil((t+1)/2) 'X' marks and floor((t+1)/2) 'O' marks. Only that player can win by it. |
| `Game.Run` | src/main.rs:74-93 | The loop's outcome, move count and final board are exactly `Play(EmptyBoard(), 0, input)`. So every rejected line is skipped and every accepted line is played by the player due. The loop stops at the first winning move. Otherwise it stops on the first move that fills the board: a move that both completes a line and fills the board is a win. It reports running out of input only once every remaining line was rejected. `NewGameFollowsRules` then gives the bounds and counts. |

## Left out

- Rendering (`display`, lines 15-25) and every `println!` message are console output with no behavioural content. `Symbol` is modelled.
- Reading standard input (`read_line`, its `.unwrap()`, `trim` and `parse::<usize>`, lines 37-40) is input and library parsing. The model receives already parsed lines as `Option<nat>`.
- Game.GameState.PlayTurn: the source keeps prompting until a legal line arrives. Once standard input is at its end, `read_line` returns an empty line, which fails to parse, so `play_turn` prints "Invalid input" and loops forever without blocking. The model reads only the lines it is given and returns `accepted == false`, with nothing changed, when they run out.
- Game.Run: the `InputExhausted` outcome (also produced by `Play`) exists only because input is finite in the model. Where the source would spin forever, the model reports this outcome instead.
- The board is a `Vec` in the source. No code ever changes its length, so the model uses a fixed 9-element array.
