/** Concrete boards: the behaviour the repository's unit tests pin down,
    stated about the functions of module Board. */
module Scenarios {
  import opened Board

  /** A new 4 x 4 board is solved; moving the blank up puts it at index 11,
      slides tile 12 into the bottom-right cell, and unsolves the board. */
  lemma FreshThenUp()
    ensures InOrder(Fresh(4).order)
    ensures Step(Fresh(4), Up).order[11] == 16
    ensures Step(Fresh(4), Up).order[15] == 12
    ensures !InOrder(Step(Fresh(4), Up).order)
  {
    FreshMoves(4);
    MoveUnsolves(Fresh(4), Up);
  }

  /** Moving the blank left from the start puts it at index 14 and slides
      tile 15 into the bottom-right cell. */
  lemma FreshThenLeft()
    ensures Step(Fresh(4), Left).order[14] == 16
    ensures Step(Fresh(4), Left).order[15] == 15
  {
    FreshMoves(4);
  }

  /** Row 2 of a new 5 x 5 board holds tiles 11 to 15; there is no row 5. */
  lemma FreshRowOfFive()
    ensures Row(Fresh(5), 2) == Some([11, 12, 13, 14, 15])
    ensures Row(Fresh(5), 5) == None
  {
    var s := Fresh(5);
    var r := s.order[10..15];
    assert Row(s, 2).value == r;
    assert r[0] == 11 && r[1] == 12 && r[2] == 13 && r[3] == 14 && r[4] == 15;
    assert r == [11, 12, 13, 14, 15];
  }

  /** Two moves in one direction, as a sequence. */
  lemma RunTwice(s: State, m: Move)
    requires Valid(s)
    ensures Run(s, [m, m]) == Step(Step(s, m), m)
  {
    assert [m, m][1..] == [m];
    RunOne(Step(s, m), m);
  }

  /** Three moves in one direction, as a sequence. */
  lemma RunThrice(s: State, m: Move)
    requires Valid(s)
    ensures Run(s, [m, m, m]) == Step(Step(Step(s, m), m), m)
  {
    RunTwice(s, m);
    RunSnoc(s, [m, m], m);
    assert [m, m] + [m] == [m, m, m];
  }

  /** A move that meets the frame keeps meeting it. */
  lemma StuckFourTimes(s: State, m: Move)
    requires Valid(s) && !CanMove(s, m)
    ensures Run(s, [m, m, m, m]) == s
  {
    assert [m, m, m, m][1..] == [m, m, m];
    RunThrice(s, m);
  }

  /** Seven moves up from the start stop with the blank in the top row, at
      index 3: the last four meet the frame. */
  lemma RepeatedUp()
    ensures Run(Fresh(4), [Up, Up, Up, Up, Up, Up, Up]).freeSpace == 3
  {
    var s0 := Fresh(4);
    ThreeUpsReachEdge();
    var s1 := Step(s0, Up);
    var s2 := Step(s1, Up);
    var s3 := Step(s2, Up);
    StuckFourTimes(s3, Up);
    assert [Up, Up, Up, Up, Up, Up, Up][1..] == [Up, Up, Up, Up, Up, Up];
    assert [Up, Up, Up, Up, Up, Up][1..] == [Up, Up, Up, Up, Up];
    assert [Up, Up, Up, Up, Up][1..] == [Up, Up, Up, Up];
  }

  /** Three moves up from the start bring the blank to index 3 in the
      top row, where a further move up meets the frame. */
  lemma ThreeUpsReachEdge()
    ensures Step(Step(Step(Fresh(4), Up), Up), Up).freeSpace == 3
    ensures !CanMove(Step(Step(Step(Fresh(4), Up), Up), Up), Up)
  {
    FreshMoves(4);
    var s1 := Step(Fresh(4), Up);
    assert s1.freeSpace == 11;
    assert CanMove(s1, Up);
    var s2 := Step(s1, Up);
    assert s2.freeSpace == 7;
    assert CanMove(s2, Up);
  }

  /** Seven moves left from the start stop with the blank in the leftmost
      column, at index 12. */
  lemma RepeatedLeft()
    ensures Run(Fresh(4), [Left, Left, Left, Left, Left, Left, Left]).freeSpace == 12
  {
    var s0 := Fresh(4);
    ThreeLeftsReachEdge();
    var s1 := Step(s0, Left);
    var s2 := Step(s1, Left);
    var s3 := Step(s2, Left);
    StuckFourTimes(s3, Left);
    assert [Left, Left, Left, Left, Left, Left, Left][1..] == [Left, Left, Left, Left, Left, Left];
    assert [Left, Left, Left, Left, Left, Left][1..] == [Left, Left, Left, Left, Left];
    assert [Left, Left, Left, Left, Left][1..] == [Left, Left, Left, Left];
  }

  /** Three moves left from the start bring the blank to index 12 in the
      leftmost column, where a further move left meets the frame. */
  lemma ThreeLeftsReachEdge()
    ensures Step(Step(Step(Fresh(4), Left), Left), Left).freeSpace == 12
    ensures !CanMove(Step(Step(Step(Fresh(4), Left), Left), Left), Left)
  {
    FreshMoves(4);
    var s1 := Step(Fresh(4), Left);
    assert s1.freeSpace == 14;
    assert CanMove(s1, Left);
    var s2 := Step(s1, Left);
    assert s2.freeSpace == 13;
    assert CanMove(s2, Left);
  }

  /** Undoing the same move twice is its opposite twice. */
  lemma UndoTwice(m: Move)
    ensures Undo([m, m]) == [Opposite(m), Opposite(m)]
  {
    var ms := [m, m];
    assert ms[1..] == [m] && [m][1..] == [];
  }

  /** Two effective moves in one direction are undone by two in the other. */
  lemma TwiceThenBack(s: State, m: Move)
    requires Valid(s) && Legal(s, [m, m])
    ensures Run(s, [m, m, Opposite(m), Opposite(m)]) == s
  {
    var ms := [m, m];
    var back := [Opposite(m), Opposite(m)];
    assert ms + back == [m, m, Opposite(m), Opposite(m)];
    UndoTwice(m);
    UndoRestores(s, ms);
    RunAppend(s, ms, back);
  }

  /** Two effective moves in one direction and one in the other leave the
      board as after the first move. */
  lemma TwiceThenOnceBack(s: State, m: Move)
    requires Valid(s) && Legal(s, [m, m])
    ensures Run(s, [m, m, Opposite(m)]) == Step(s, m)
  {
    var t := Step(s, m);
    assert [m, m][1..] == [m];
    RunOne(t, m);
    assert Run(s, [m, m]) == Step(t, m);
    RunSnoc(s, [m, m], Opposite(m));
    assert [m, m] + [Opposite(m)] == [m, m, Opposite(m)];
    StepReversible(t, m);
  }

  /** Two moves up from the start are both effective and put the blank at index 7. */
  lemma TwoUpsAreLegal()
    ensures Legal(Fresh(4), [Up, Up])
    ensures Run(Fresh(4), [Up, Up]).order[7] == 16
  {
    var f := Fresh(4);
    FreshMoves(4);
    var s1 := Step(f, Up);
    assert s1.freeSpace == 11;
    assert CanMove(s1, Up);
    assert [Up, Up][1..] == [Up] && [Up][1..] == [];
    RunTwice(f, Up);
  }

  /** After two moves Up, a move Down brings the blank back to index 11. */
  lemma TwoUpsThenDown()
    ensures Run(Fresh(4), [Up, Up, Down]).freeSpace == 11
    ensures Run(Fresh(4), [Up, Up, Down]).order[11] == 16
  {
    TwoUpsAreLegal();
    TwiceThenOnceBack(Fresh(4), Up);
    FreshMoves(4);
  }

  /** Up, up, down, down from the start returns to the solved board. */
  lemma UpsThenDowns()
    ensures InOrder(Run(Fresh(4), [Up, Up, Down, Down]).order)
  {
    TwoUpsAreLegal();
    TwiceThenBack(Fresh(4), Up);
  }

  /** Two moves left from the start are both effective and put the blank at index 13. */
  lemma TwoLeftsAreLegal()
    ensures Legal(Fresh(4), [Left, Left])
    ensures Run(Fresh(4), [Left, Left]).order[13] == 16
  {
    var f := Fresh(4);
    FreshMoves(4);
    var s1 := Step(f, Left);
    assert s1.freeSpace == 14;
    assert CanMove(s1, Left);
    assert [Left, Left][1..] == [Left] && [Left][1..] == [];
    RunTwice(f, Left);
  }

  /** After two moves Left, a move Right brings the blank back to index 14. */
  lemma TwoLeftsThenRight()
    ensures Run(Fresh(4), [Left, Left, Right]).freeSpace == 14
    ensures Run(Fresh(4), [Left, Left, Right]).order[14] == 16
  {
    TwoLeftsAreLegal();
    TwiceThenOnceBack(Fresh(4), Left);
    FreshMoves(4);
  }

  /** Left, left, right, right from the start returns to the solved board. */
  lemma LeftsThenRights()
    ensures InOrder(Run(Fresh(4), [Left, Left, Right, Right]).order)
  {
    TwoLeftsAreLegal();
    TwiceThenBack(Fresh(4), Left);
  }
}
