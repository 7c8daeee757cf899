/** The sliding-tile puzzle board as a value: an N x N grid of tiles 1..N*N in
    row-major order, where the tile N*N marks the blank, together with the
    cached index of the blank. The moves, the scramble and the solved test
    are defined here as functions; the class in pattern.dfy updates an array
    in place and is proved to follow them. */
module Board {
  import opened Grid

  /** Tiles are unsigned bytes. */
  newtype u8 = x: int | 0 <= x < 256

  datatype Option<T> = None | Some(value: T)

  /** The four moves, named for the direction in which the blank travels. */
  datatype Move = Up | Down | Left | Right

  /** `size` is the side length, `order` the tiles row by row, `freeSpace`
      the index of the blank in `order`. */
  datatype State = State(size: nat, order: seq<u8>, freeSpace: nat)

  /** Tile number that marks the blank: the largest one. */
  function LastTile(size: nat): nat
  {
    size * size
  }

  /** Tiles 1..n in ascending order. */
  function Identity(n: nat): (r: seq<u8>)
    requires n <= 255
    ensures IsPermutation(r, n)
  {
    seq(n, i requires 0 <= i < n => (i + 1) as u8)
  }

  /** `order` holds each of the tiles 1..n exactly once. */
  ghost predicate IsPermutation(order: seq<u8>, n: nat)
  {
    |order| == n &&
    (forall i :: 0 <= i < n ==> 1 <= order[i] as int <= n) &&
    (forall i, j :: 0 <= i < j < n ==> order[i] != order[j])
  }

  /** What every board satisfies: a side of at least 2 whose tiles fit in a
      byte, a permutation of 1..size*size, and the cached index pointing at
      the blank. */
  ghost predicate Valid(s: State)
  {
    2 <= s.size && s.size * s.size <= 255 &&
    IsPermutation(s.order, s.size * s.size) &&
    s.freeSpace < |s.order| &&
    s.order[s.freeSpace] as int == LastTile(s.size)
  }

  /** The solved test: tile i + 1 sits at index i. */
  predicate InOrder(order: seq<u8>)
  {
    forall i :: 0 <= i < |order| ==> order[i] as int == i + 1
  }

  /** The board a new game starts from: solved, blank in the bottom-right cell. */
  function Fresh(size: nat): (s: State)
    requires 2 <= size && size * size <= 255
    ensures Valid(s) && InOrder(s.order)
    ensures s.size == size && s.freeSpace == LastTile(size) - 1
  {
    State(size, Identity(size * size), size * size - 1)
  }

  /** The guard of each move: the blank is not on the frame edge it would cross. */
  predicate CanMove(s: State, m: Move)
    requires s.size > 0
  {
    match m
    case Up => s.freeSpace / s.size > 0
    case Down => s.freeSpace / s.size < s.size - 1
    case Left => s.freeSpace % s.size > 0
    case Right => s.freeSpace % s.size < s.size - 1
  }

  /** Flat index of the cell the blank moves to. */
  function Neighbour(s: State, m: Move): int
  {
    match m
    case Up => s.freeSpace - s.size
    case Down => s.freeSpace + s.size
    case Left => s.freeSpace - 1
    case Right => s.freeSpace + 1
  }

  /** Exchange of two cells. */
  function Swap(order: seq<u8>, i: nat, j: nat): (r: seq<u8>)
    requires i < |order| && j < |order|
    ensures |r| == |order| && r[i] == order[j] && r[j] == order[i]
    ensures forall k :: 0 <= k < |order| && k != i && k != j ==> r[k] == order[k]
    ensures multiset(r) == multiset(order)
  {
    order[i := order[j]][j := order[i]]
  }

  /** One move: when the guard holds, the blank and its neighbour change
      places; at the frame edge nothing changes. */
  function Step(s: State, m: Move): (r: State)
    requires Valid(s)
    ensures Valid(r) && r.size == s.size
    ensures multiset(r.order) == multiset(s.order)
    ensures !CanMove(s, m) ==> r == s
    ensures CanMove(s, m) ==>
              r.freeSpace == Neighbour(s, m) && r.freeSpace != s.freeSpace &&
              r.order[s.freeSpace] == s.order[r.freeSpace]
    ensures forall k :: 0 <= k < |s.order| && k != s.freeSpace && k != r.freeSpace ==>
              r.order[k] == s.order[k]
  {
    if CanMove(s, m) then
      var n := s.size;
      assert Neighbour(s, m) < n * n by {
        RowInRange(s.freeSpace, n);
        if m == Down { BelowInRange(s.freeSpace, n); }
        if m == Right { RightInRange(s.freeSpace, n); }
      }
      var t := Neighbour(s, m);
      State(n, Swap(s.order, s.freeSpace, t), t)
    else
      s
  }

  /** The blank is the only cell holding the last tile, so the cached index
      is determined by `order`. */
  lemma BlankIsUnique(s: State, i: nat)
    requires Valid(s) && i < |s.order| && s.order[i] as int == LastTile(s.size)
    ensures i == s.freeSpace
  {
  }

  /** An effective move carries the blank to the adjacent cell in the grid:
      one row up or down in the same column, or one column left or right in
      the same row. */
  lemma StepIsAdjacent(s: State, m: Move)
    requires Valid(s) && CanMove(s, m)
    ensures var a, b, n := s.freeSpace, Step(s, m).freeSpace, s.size;
            match m
            case Up => b / n == a / n - 1 && b % n == a % n
            case Down => b / n == a / n + 1 && b % n == a % n
            case Left => b / n == a / n && b % n == a % n - 1
            case Right => b / n == a / n && b % n == a % n + 1
  {
    var a, n := s.freeSpace, s.size;
    assert Step(s, m).freeSpace == Neighbour(s, m);
    match m
    case Up => RowAbove(a, n);
    case Down => RowBelow(a, n);
    case Left => ColumnLeft(a, n);
    case Right => ColumnRight(a, n);
  }

  /** The move in the opposite direction. */
  function Opposite(m: Move): Move
  {
    match m
    case Up => Down
    case Down => Up
    case Left => Right
    case Right => Left
  }

  /** After an effective move the opposite move is effective too, and it
      restores the board exactly. */
  lemma StepReversible(s: State, m: Move)
    requires Valid(s) && CanMove(s, m)
    ensures CanMove(Step(s, m), Opposite(m))
    ensures Step(Step(s, m), Opposite(m)) == s
  {
    var t := Step(s, m);
    OppositeIsEffective(s, m);
    var u := Step(t, Opposite(m));
    forall k | 0 <= k < |s.order|
      ensures u.order[k] == s.order[k]
    {
      if k == s.freeSpace {
        assert u.order[k] == t.order[t.freeSpace];
      } else if k == t.freeSpace {
        assert u.order[k] == t.order[s.freeSpace];
      }
    }
    assert u.order == s.order;
  }

  /** After an effective move, the opposite move is effective and targets the
      cell the blank came from. */
  lemma OppositeIsEffective(s: State, m: Move)
    requires Valid(s) && CanMove(s, m)
    ensures CanMove(Step(s, m), Opposite(m))
    ensures Neighbour(Step(s, m), Opposite(m)) == s.freeSpace
  {
    var a, n := s.freeSpace, s.size;
    var t := Step(s, m);
    assert t.size == n && t.freeSpace == Neighbour(s, m);
    RowInRange(a, n);
    match m
    case Up => RowAbove(a, n);
    case Down => RowBelow(a, n);
    case Left => ColumnLeft(a, n);
    case Right => ColumnRight(a, n);
  }

  /** A sequence of moves applied in turn. */
  function Run(s: State, ms: seq<Move>): (r: State)
    requires Valid(s)
    ensures Valid(r) && r.size == s.size
    ensures multiset(r.order) == multiset(s.order)
    decreases |ms|
  {
    if ms == [] then s else Run(Step(s, ms[0]), ms[1..])
  }

  lemma {:induction false} RunAppend(s: State, a: seq<Move>, b: seq<Move>)
    requires Valid(s)
    ensures Run(s, a + b) == Run(Run(s, a), b)
    decreases |a|
  {
    if a == [] {
      assert a + b == b;
    } else {
      assert (a + b)[0] == a[0];
      assert (a + b)[1..] == a[1..] + b;
      RunAppend(Step(s, a[0]), a[1..], b);
    }
  }

  /** A single move, as a sequence of one. */
  lemma RunOne(s: State, m: Move)
    requires Valid(s)
    ensures Run(s, [m]) == Step(s, m)
    ensures Legal(s, [m]) <==> CanMove(s, m)
  {
    assert [m][0] == m && [m][1..] == [];
  }

  /** Appending a move to a sequence applies it last. */
  lemma RunSnoc(s: State, ms: seq<Move>, m: Move)
    requires Valid(s)
    ensures Run(s, ms + [m]) == Step(Run(s, ms), m)
  {
    RunAppend(s, ms, [m]);
    RunOne(Run(s, ms), m);
  }

  /** Every move of `ms` is effective where it is applied. */
  predicate Legal(s: State, ms: seq<Move>)
    requires Valid(s)
    decreases |ms|
  {
    ms == [] || (CanMove(s, ms[0]) && Legal(Step(s, ms[0]), ms[1..]))
  }

  lemma {:induction false} LegalAppend(s: State, a: seq<Move>, b: seq<Move>)
    requires Valid(s)
    ensures Legal(s, a + b) <==> Legal(s, a) && Legal(Run(s, a), b)
    decreases |a|
  {
    if a == [] {
      assert a + b == b;
    } else {
      assert (a + b)[0] == a[0];
      assert (a + b)[1..] == a[1..] + b;
      LegalAppend(Step(s, a[0]), a[1..], b);
    }
  }

  /** The moves of `ms` that are not no-ops where they are applied. */
  function Effective(s: State, ms: seq<Move>): (r: seq<Move>)
    requires Valid(s)
    ensures Legal(s, r) && Run(s, r) == Run(s, ms)
    ensures |r| <= |ms|
    decreases |ms|
  {
    if ms == [] then []
    else if CanMove(s, ms[0]) then
      var rest := Effective(Step(s, ms[0]), ms[1..]);
      assert ([ms[0]] + rest)[0] == ms[0] && ([ms[0]] + rest)[1..] == rest;
      [ms[0]] + rest
    else
      Effective(s, ms[1..])
  }

  /** The opposite moves in reverse order. */
  function Undo(ms: seq<Move>): (r: seq<Move>)
    ensures |r| == |ms|
  {
    if ms == [] then [] else Undo(ms[1..]) + [Opposite(ms[0])]
  }

  /** A sequence of effective moves is undone, legally, by its opposite moves
      in reverse order. */
  lemma {:induction false} UndoRestores(s: State, ms: seq<Move>)
    requires Valid(s) && Legal(s, ms)
    ensures Legal(Run(s, ms), Undo(ms))
    ensures Run(Run(s, ms), Undo(ms)) == s
    decreases |ms|
  {
    if ms != [] {
      var m, rest := ms[0], ms[1..];
      var t := Step(s, m);
      var end := Run(t, rest);
      var back := Opposite(m);
      assert Run(s, ms) == end;
      assert Legal(t, rest);
      assert Undo(ms) == Undo(rest) + [back];
      UndoRestores(t, rest);
      StepReversible(s, m);
      RunOne(t, back);
      LegalAppend(end, Undo(rest), [back]);
      RunAppend(end, Undo(rest), [back]);
    }
  }

  /** Whatever moves were tried, the board they produce is brought back by
      undoing the effective ones. */
  lemma ScrambleIsReversible(s: State, ms: seq<Move>)
    requires Valid(s)
    ensures Legal(Run(s, ms), Undo(Effective(s, ms)))
    ensures Run(Run(s, ms), Undo(Effective(s, ms))) == s
  {
    UndoRestores(s, Effective(s, ms));
  }

  /** A board is solved exactly when it is the board a new game starts from. */
  lemma InOrderIsFresh(s: State)
    requires Valid(s)
    ensures InOrder(s.order) <==> s == Fresh(s.size)
  {
    if InOrder(s.order) {
      var n := s.size * s.size;
      assert s.order == Identity(n);
      assert s.freeSpace == n - 1;
    }
  }

  /** One effective move from a solved board leaves it unsolved. */
  lemma MoveUnsolves(s: State, m: Move)
    requires Valid(s) && InOrder(s.order) && CanMove(s, m)
    ensures !InOrder(Step(s, m).order)
  {
    var t := Step(s, m);
    assert s.freeSpace == |s.order| - 1;
    assert t.order[t.freeSpace] as int != t.freeSpace + 1;
  }

  /** From the start position only Up and Left move the blank; Down and Right
      meet the frame. */
  lemma FreshMoves(size: nat)
    requires 2 <= size && size * size <= 255
    ensures CanMove(Fresh(size), Up) && CanMove(Fresh(size), Left)
    ensures !CanMove(Fresh(size), Down) && !CanMove(Fresh(size), Right)
  {
    DivModUnique(size * size - 1, size, size - 1, size - 1);
  }

  /** The direction a byte selects during the scramble, by its value mod 4. */
  function ChoiceMove(r: u8): Move
  {
    var c := r % 4;
    if c == 0 then Up else if c == 1 then Down else if c == 2 then Right else Left
  }

  /** The moves a scramble performs, one per byte. */
  function Choices(rs: seq<u8>): (ms: seq<Move>)
    ensures |ms| == |rs|
  {
    seq(|rs|, i requires 0 <= i < |rs| => ChoiceMove(rs[i]))
  }

  /** One more byte adds its move at the end. */
  lemma ChoicesSnoc(rs: seq<u8>, k: nat)
    requires k < |rs|
    ensures Choices(rs[..k + 1]) == Choices(rs[..k]) + [ChoiceMove(rs[k])]
  {
  }

  /** A scrambled start position can always be solved by effective moves. */
  lemma ShuffledIsSolvable(size: nat, rs: seq<u8>)
    requires 2 <= size && size * size <= 255
    ensures var t := Run(Fresh(size), Choices(rs));
            exists ms :: Legal(t, ms) && InOrder(Run(t, ms).order)
  {
    var f := Fresh(size);
    var t := Run(f, Choices(rs));
    var ms := Undo(Effective(f, Choices(rs)));
    ScrambleIsReversible(f, Choices(rs));
    assert Legal(t, ms) && InOrder(Run(t, ms).order);
  }

  /** Row `row` of the grid, or None when there is no such row. */
  function Row(s: State, row: nat): (r: Option<seq<u8>>)
    requires |s.order| == s.size * s.size
    ensures r.None? <==> row >= s.size
    ensures r.Some? ==> |r.value| == s.size
  {
    if row >= s.size then None
    else
      var start := row * s.size;
      RowEnd(row, s.size);
      Some(s.order[start..start + s.size])
  }

  /** Cell i of the board is column i % size of row i / size. */
  lemma RowsCoverBoard(s: State, i: nat)
    requires |s.order| == s.size * s.size && i < |s.order|
    ensures Row(s, i / s.size).Some?
    ensures Row(s, i / s.size).value[i % s.size] == s.order[i]
  {
    var n := s.size;
    var row, col := i / n, i % n;
    RowInRange(i, n);
    RowEnd(row, n);
    assert i == row * n + col;
    assert Row(s, row).value == s.order[row * n..row * n + n];
  }
}
