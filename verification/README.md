# Sliding-tile puzzle board (rs-fuenfzehn `Pattern`)

This project models the board engine of a terminal "15 puzzle" generalised to
N x N, and proves what its operations promise.

A `Pattern` holds three things:

- `size`, the side length;
- `order`, the tiles `1..=size²` in row-major order, where the tile `size²` is the blank;
- `freeSpace`, the cached index of the blank.

The operations are:

- four guarded moves (`up`, `down`, `left`, `right`), named for the direction the blank travels;
- a scramble that is a walk of such moves;
- the solved test;
- row access for drawing the board.

The project has four modules:

- `Board` (board.dfy) is the value model. `State` is a board and `Valid` is the board
  invariant: the tiles are a permutation of `1..=size²` and `freeSpace` points at the blank.
  `Step` is one move, with the guard `CanMove` and the target cell `Neighbour`. `Run` is a
  sequence of moves, `InOrder` the solved test and `Row` a row. The module also proves the
  lemmas that connect these: opposite moves undo each other, the effective moves of a scramble
  are undone by their opposites in reverse order, and a board is solved exactly when it is the
  start board.
- `Patterns` (pattern.dfy) is the class `Pattern`. It holds an `array<u8>` and the
  `freeSpace` field. The moves swap two array cells in place. Each method is proved to take
  the board to `Step(old board, move)` and to keep `Valid`. `Shuffle` loops over its input
  bytes and is proved to produce `Run(old board, Choices(bytes))`.
- `Scenarios` (scenarios.dfy) states the concrete behaviour from the repository's unit tests
  as lemmas about `Board`.
- `Grid` (grid.dfy) holds division and remainder facts for row-major indices.

The four moves use the guards and neighbours of the source. `up` requires `freeSpace / size > 0`
and targets `-size`. `down` requires `freeSpace / size < size - 1` and targets `+size`. `left`
requires `freeSpace % size > 0` and targets `-1`. `right` requires `freeSpace % size < size - 1`
and targets `+1`. When its guard fails, a move changes nothing. During the scramble, a random
byte `r` selects a move by `r % 4`: 0 is up, 1 is down, 2 is right and 3 is left.

`Pattern::new` (src/pattern.rs:11-19) accepts any size. Only the argument check at
src/main.rs:34-35 limits it to 2..=10, so the constructor requires
`2 <= size && size * size <= 255`.

The inverse of a scramble is the reversed opposites of its *effective* moves only. A move that
hit the frame was a no-op, and its opposite need not be one. `Board.Effective` picks out the
effective moves, and `Board.ScrambleIsReversible` is stated with it.

## Model

| member | source | states |
|---|---|---|
| `Board.Fresh` | src/pattern.rs:11-19 | the new board satisfies the invariant, is solved, and has the blank at index `size² - 1` |
| `Board.Identity` | src/pattern.rs:15 | the tiles `1..=n` collected in order form a permutation of `1..=n` |
| `Board.Choices` | src/pattern.rs:29-30 | a scramble of `steps` bytes performs exactly `steps` moves, one per byte |
| `Board.InOrder` | src/pattern.rs:54-59 | the solved test: tile `i + 1` sits at index `i` for every index `i` |
| `Board.CanMove` | src/pattern.rs:62-85 | the guards of the four moves, one per direction: up needs `freeSpace / size > 0` (line 62), down `freeSpace / size < size - 1` (line 70), left `freeSpace % size > 0` (line 78), right `freeSpace % size < size - 1` (line 85) |
| `Board.Neighbour` | src/pattern.rs:64-86 | the cell each move swaps the blank with: `freeSpace - size` for up (line 64), `+ size` for down (line 72), `- 1` for left (line 79), `+ 1` for right (line 86) |
| `Board.ChoiceMove` | src/pattern.rs:30-39 | a scramble byte `r` selects up when `r % 4 == 0`, down when it is 1, right when it is 2 and left otherwise |
| `Board.Swap` | src/pattern.rs:63-64 | exchanging two cells swaps exactly those two, keeps every other cell and keeps the multiset of tiles |
| `Board.Step` | src/pattern.rs:61-89 | a move keeps the invariant (permutation of `1..=size²`, blank at `freeSpace`) and the multiset of tiles. When the guard fails the board is unchanged. Otherwise the blank goes to the neighbour index, the neighbour's tile slides into the old blank cell, and no other cell changes |
| `Board.BlankIsUnique` | src/pattern.rs:21-23 | the last tile sits in exactly one cell, so the cached `freeSpace` is determined by `order` |
| `Board.StepIsAdjacent` | src/pattern.rs:61-89 | an effective up or down move changes the blank's row by one and keeps its column. An effective left or right move changes its column by one and keeps its row |
| `Board.OppositeIsEffective` | src/pattern.rs:61-89 | after an effective move, the guard of the opposite move holds and that move targets the cell the blank came from |
| `Board.StepReversible` | src/pattern.rs:61-89 | after an effective move, the opposite move restores the board exactly (down undoes up, right undoes left, and the reverse) |
| `Board.Run` | src/pattern.rs:29-40 | any sequence of moves keeps the invariant, the side length and the multiset of tiles |
| `Board.RunAppend` | src/pattern.rs:29-40 | running two move sequences one after the other is running their concatenation |
| `Board.Effective` | src/pattern.rs:29-40 | the moves that were not frame no-ops form a legal sequence (every move effective where it is applied) and produce the same board |
| `Board.UndoRestores` | src/pattern.rs:61-89 | a legal move sequence is undone, again legally, by its opposite moves in reverse order |
| `Board.ScrambleIsReversible` | src/pattern.rs:25-41 | whatever moves a scramble tried, undoing its effective moves is legal and returns the board it started from |
| `Board.ShuffledIsSolvable` | src/pattern.rs:25-41 | a new board scrambled by any bytes can be solved by some legal move sequence |
| `Board.InOrderIsFresh` | src/pattern.rs:54-59 | a valid board passes the solved test exactly when it equals the new board of its size, in both directions |
| `Board.MoveUnsolves` | src/pattern.rs:54-59 | one effective move from a solved board makes the solved test fail |
| `Board.FreshMoves` | src/pattern.rs:11-19 | on the new board only up and left are effective; down and right meet the frame |
| `Board.Row` | src/pattern.rs:43-52 | the result is None exactly when `row >= size`; otherwise it holds `size` tiles |
| `Board.RowsCoverBoard` | src/pattern.rs:43-52 | every cell `i` is column `i % size` of row `i / size` as that row is returned |
| `Patterns.Pattern.constructor` | src/pattern.rs:11-19 | the new array holds `1..=size²` in order with the blank at `size² - 1`, the new board |
| `Patterns.Pattern.GetLastTile` | src/pattern.rs:21-23 | on a valid board the result is the tile in the blank cell and equals the number of cells |
| `Patterns.Pattern.Up` | src/pattern.rs:61-67 | swaps the blank with the cell `size` before it when the blank is not in the top row, else changes nothing, and keeps the invariant |
| `Patterns.Pattern.Down` | src/pattern.rs:69-75 | swaps the blank with the cell `size` after it when the blank is not in the bottom row, else changes nothing, and keeps the invariant |
| `Patterns.Pattern.Left` | src/pattern.rs:77-82 | swaps the blank with the previous cell when it is not in the leftmost column, else changes nothing, and keeps the invariant |
| `Patterns.Pattern.Right` | src/pattern.rs:84-89 | swaps the blank with the next cell when it is not in the rightmost column, else changes nothing, and keeps the invariant |
| `Patterns.Pattern.Shuffle` | src/pattern.rs:25-41 | applies one move per input byte, chosen by the byte mod 4, in order, and keeps the invariant |
| `Patterns.Pattern.GetRow` | src/pattern.rs:43-52 | returns the row of the array's board as `Board.Row` describes it |
| `Patterns.Pattern.IsInOrder` | src/pattern.rs:54-59 | true exactly when the board is the new board of its size |
| `Scenarios.FreshThenUp` | src/pattern.rs:96-103 | the new 4 x 4 board is solved. After up, tile 16 is at index 11 and tile 12 at index 15, and the board is unsolved |
| `Scenarios.FreshThenLeft` | src/pattern.rs:148-154 | after left on the new 4 x 4 board, tile 16 is at index 14 and tile 15 at index 15 |
| `Scenarios.FreshRowOfFive` | src/pattern.rs:105-111 | row 2 of the new 5 x 5 board is `[11, 12, 13, 14, 15]`, and row 5 does not exist |
| `Scenarios.RepeatedUp` | src/pattern.rs:120-135 | seven ups from the new 4 x 4 board leave the blank at index 3 |
| `Scenarios.TwoUpsAreLegal` | src/pattern.rs:127-128 | two ups from the new 4 x 4 board are both effective and put tile 16 at index 7 |
| `Scenarios.TwoLeftsAreLegal` | src/pattern.rs:155-156 | two lefts from the new 4 x 4 board are both effective and put tile 16 at index 13 |
| `Scenarios.RepeatedLeft` | src/pattern.rs:148-163 | seven lefts from the new 4 x 4 board leave the blank at index 12 |
| `Scenarios.TwoUpsThenDown` | src/pattern.rs:137-143 | up, up, down from the new 4 x 4 board puts tile 16 at index 11 |
| `Scenarios.UpsThenDowns` | src/pattern.rs:137-146 | up, up, down, down from the new 4 x 4 board gives a solved board |
| `Scenarios.TwoLeftsThenRight` | src/pattern.rs:165-171 | left, left, right from the new 4 x 4 board puts tile 16 at index 14 |
| `Scenarios.LeftsThenRights` | src/pattern.rs:165-174 | left, left, right, right from the new 4 x 4 board gives a solved board |

## Left out

- The random number generator of `shuffle` (src/pattern.rs:26-27) is not modelled. `Shuffle`
  takes the random bytes as an input sequence, and its length is the step count.
- The unit test at src/pattern.rs:114-118 expects 25 random moves to leave the board unsolved.
  That only holds with high probability, so it is not stated.
- src/game.rs is not part of this model. It holds terminal I/O: the alternate screen, drawing
  the grid, and reading keys. It also maps arrow keys to moves and picks the scramble length
  `30 * size³`; both are plain dispatch and a constant.
- src/main.rs is not part of this model. It parses arguments and sets up raw mode. Its size
  range 2..=10 becomes the constructor's precondition `2 <= size && size * size <= 255`.
- `Patterns.Pattern.constructor`: a size below 2, or one whose square exceeds 255, is excluded
  by precondition. The source would underflow at `size * size - 1` for size 0, and `as u8`
  would truncate the tile range for larger sizes.
- `Patterns.Pattern.GetRow` returns a copy of the row as a sequence rather than a borrowed
  slice into the array.
- `Patterns.Pattern.IsInOrder` requires the board invariant, which every operation keeps.
  The source's test needs no invariant.
- `size` is a public field in the source. It is never changed there, so the model makes it a
  constant.
