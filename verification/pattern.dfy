/** The puzzle board as the game holds it: an array of tiles that the moves
    update in place, and the index of the blank kept beside it. Every method
    is proved to do what the corresponding function of module Board says. */
module Patterns {
  import opened Board

  class Pattern {
    const size: nat
    const order: array<u8>
    var freeSpace: nat

    /** The board as a value. */
    ghost function Model(): State
      reads this, order
    {
      State(size, order[..], freeSpace)
    }

    ghost predicate Valid()
      reads this, order
    {
      Board.Valid(Model())
    }

    /** A new board of side `size`, solved. */
    constructor (size: nat)
      requires 2 <= size && size * size <= 255
      ensures Valid() && fresh(order)
      ensures Model() == Fresh(size)
    {
      var n := size * size;
      this.size := size;
      order := new u8[n](i requires 0 <= i < n => (i + 1) as u8);
      freeSpace := n - 1;
      new;
      assert order[..] == Identity(n);
    }

    /** The tile number of the blank. */
    function GetLastTile(): (r: nat)
      reads this, order
      ensures Valid() ==> r == order[freeSpace] as int
      ensures Valid() ==> r == order.Length
    {
      size * size
    }

    /** Moves the blank one row up unless it is in the top row. */
    method Up()
      requires Valid()
      modifies this, order
      ensures Valid()
      ensures Model() == Step(old(Model()), Board.Up)
    {
      if freeSpace / size > 0 {
        order[freeSpace], order[freeSpace - size] := order[freeSpace - size], order[freeSpace];
        freeSpace := freeSpace - size;
      }
    }

    /** Moves the blank one row down unless it is in the bottom row. */
    method Down()
      requires Valid()
      modifies this, order
      ensures Valid()
      ensures Model() == Step(old(Model()), Board.Down)
    {
      if freeSpace / size < size - 1 {
        Grid.BelowInRange(freeSpace, size);
        order[freeSpace], order[freeSpace + size] := order[freeSpace + size], order[freeSpace];
        freeSpace := freeSpace + size;
      }
    }

    /** Moves the blank one column left unless it is in the leftmost column. */
    method Left()
      requires Valid()
      modifies this, order
      ensures Valid()
      ensures Model() == Step(old(Model()), Board.Left)
    {
      if freeSpace % size > 0 {
        order[freeSpace], order[freeSpace - 1] := order[freeSpace - 1], order[freeSpace];
        freeSpace := freeSpace - 1;
      }
    }

    /** Moves the blank one column right unless it is in the rightmost column. */
    method Right()
      requires Valid()
      modifies this, order
      ensures Valid()
      ensures Model() == Step(old(Model()), Board.Right)
    {
      if freeSpace % size < size - 1 {
        Grid.RightInRange(freeSpace, size);
        order[freeSpace], order[freeSpace + 1] := order[freeSpace + 1], order[freeSpace];
        freeSpace := freeSpace + 1;
      }
    }

    /** Scrambles the board with one move per byte of `rs`; the bytes stand
        for the random values the game draws. */
    method Shuffle(rs: seq<u8>)
      requires Valid()
      modifies this, order
      ensures Valid()
      ensures Model() == Run(old(Model()), Choices(rs))
    {
      for k := 0 to |rs|
        invariant Valid()
        invariant Model() == Run(old(Model()), Choices(rs[..k]))
      {
        ghost var before := Model();
        var s := rs[k] % 4;
        if s == 0 {
          Up();
        } else if s == 1 {
          Down();
        } else if s == 2 {
          Right();
        } else {
          Left();
        }
        assert Model() == Step(before, ChoiceMove(rs[k]));
        ChoicesSnoc(rs, k);
        RunSnoc(old(Model()), Choices(rs[..k]), ChoiceMove(rs[k]));
      }
      assert rs[..|rs|] == rs;
    }

    /** Row `row` of the board, or None when the board has no such row. */
    function GetRow(row: nat): (r: Option<seq<u8>>)
      reads this, order
      requires Valid()
      ensures r == Row(Model(), row)
    {
      Row(State(size, order[..], freeSpace), row)
    }

    /** The solved test. */
    function IsInOrder(): (b: bool)
      reads this, order
      requires Valid()
      ensures b <==> Model() == Fresh(size)
    {
      InOrderIsFresh(Model());
      InOrder(order[..])
    }
  }
}
