/**
 * The worked examples of the grouping module (src/gamma/group_areas.py): three
 * small boards and the areas each player owns on them. Each board is written
 * densely, row by row, with FREE where the example leaves a field unset.
 */
module AreaExamples {
  import opened Territory
  import opened GroupAreas

  /** The 3 x 3 example: only row 2, column 0 is left free. */
  const Board1: Grid := [[1, 1, 2], [3, 1, 1], [FREE, 1, 2]]

  /** The 2 x 2 example: four players, one field each. */
  const Board2: Grid := [[1, 2], [3, 4]]

  /** The 9 x 1 example: one row of nine fields. */
  const Strip: Grid := [[1, 1, 1, 2, 1, 3, 2, 1, 1]]

  // ---------------------------------------------------------------------------
  // Reading areas off a small board.

  /** The cells of one owner form a closed set. */
  lemma OwnedClosed(g: Grid, p: int, owned: set<Coord>)
    requires forall d :: InGrid(g, d) && At(g, d) == p <==> d in owned
    ensures Closed(g, owned)
  {
  }

  /** A part of an owner's cells that touches none of the owner's other cells is closed. */
  lemma PieceClosed(g: Grid, p: int, owned: set<Coord>, piece: set<Coord>)
    requires forall d :: InGrid(g, d) && At(g, d) == p <==> d in owned
    requires piece <= owned
    requires forall x, y :: x in piece && y in owned - piece ==> !Adjacent(x, y)
    ensures Closed(g, piece)
  {
    forall x, y | x in piece && Linked(g, x, y) ensures y in piece {
      assert y in owned;
    }
  }

  /** A closed set that c reaches entirely is the area of c. */
  lemma ComponentIs(g: Grid, c: Coord, piece: set<Coord>)
    requires c in piece && Closed(g, piece) && piece <= Component(g, c)
    ensures Component(g, c) == piece
  {
    ComponentLeast(g, c, piece);
  }

  /** A field with no same-owner neighbour is an area by itself. */
  lemma Alone(g: Grid, p: int, owned: set<Coord>, c: Coord)
    requires forall d :: InGrid(g, d) && At(g, d) == p <==> d in owned
    requires c in owned && forall y :: y in owned - {c} ==> !Adjacent(c, y)
    ensures Component(g, c) == {c}
  {
    PieceClosed(g, p, owned, {c});
    ComponentHasSeed(g, c);
    ComponentIs(g, c, {c});
  }

  /**
   * The areas of p are `parts` when every cell of p has its area among them
   * and each of them is the area of a cell of p.
   */
  lemma AreasAre(g: Grid, p: int, owned: set<Coord>, parts: set<set<Coord>>)
    requires forall d :: InGrid(g, d) && At(g, d) == p <==> d in owned
    requires forall d :: d in owned ==> Component(g, d) in parts
    requires forall A :: A in parts ==> exists d :: d in owned && Component(g, d) == A
    ensures Areas(g, p) == parts
  {
    forall A | A in parts ensures A in Areas(g, p) {
      var d :| d in owned && Component(g, d) == A;
      assert d in Cells(g);
    }
  }

  /** An owner with no field has no area. */
  lemma NoAreas(g: Grid, p: int)
    requires forall d :: InGrid(g, d) ==> At(g, d) != p
    ensures Areas(g, p) == {}
  {
    AreasEmptyIffNoCells(g, p);
  }

  // ---------------------------------------------------------------------------
  // The 3 x 3 example.

  /** Who holds which field of the 3 x 3 example. */
  lemma Board1Owners()
    ensures forall d :: InGrid(Board1, d) && At(Board1, d) == 1 <==> d in {(0, 0), (0, 1), (1, 1), (1, 2), (2, 1)}
    ensures forall d :: InGrid(Board1, d) && At(Board1, d) == 2 <==> d in {(0, 2), (2, 2)}
    ensures forall d :: InGrid(Board1, d) && At(Board1, d) == 3 <==> d in {(1, 0)}
    ensures forall d :: InGrid(Board1, d) && At(Board1, d) == FREE <==> d in {(2, 0)}
  {
    assert forall d :: InGrid(Board1, d) ==> d.0 in {0, 1, 2} && d.1 in {0, 1, 2};
  }

  /** Player 1 has one area of five fields on the 3 x 3 example. */
  lemma Board1First()
    ensures Areas(Board1, 1) == {{(0, 0), (0, 1), (1, 1), (1, 2), (2, 1)}}
    ensures AreaCount(Board1, 1) == 1
  {
    var g := Board1;
    var one := {(0, 0), (0, 1), (1, 1), (1, 2), (2, 1)};
    Board1Owners();
    OwnedClosed(g, 1, one);
    LinkedSameComponent(g, (0, 0), (0, 1));
    LinkedSameComponent(g, (0, 1), (1, 1));
    LinkedSameComponent(g, (1, 1), (1, 2));
    LinkedSameComponent(g, (1, 1), (2, 1));
    ComponentHasSeed(g, (0, 0));
    ComponentIs(g, (0, 0), one);
    AreasAre(g, 1, one, {one});
  }

  /**
   * Player 2 has two single fields, player 3 one, no other player any, and
   * the one free field is row 2, column 0.
   */
  lemma Board1Others()
    ensures Areas(Board1, 2) == {{(0, 2)}, {(2, 2)}}
    ensures Areas(Board1, 3) == {{(1, 0)}}
    ensures forall p :: p != FREE && p != 1 && p != 2 && p != 3 ==> Areas(Board1, p) == {}
    ensures FreeCells(Board1) == {(2, 0)}
    ensures AreaCount(Board1, 2) == 2 && AreaCount(Board1, 3) == 1
  {
    var g := Board1;
    Board1Owners();
    var two := {(0, 2), (2, 2)};
    Alone(g, 2, two, (0, 2));
    Alone(g, 2, two, (2, 2));
    AreasAre(g, 2, two, {{(0, 2)}, {(2, 2)}});
    Alone(g, 3, {(1, 0)}, (1, 0));
    AreasAre(g, 3, {(1, 0)}, {{(1, 0)}});
    forall p | p != FREE && p != 1 && p != 2 && p != 3 ensures Areas(g, p) == {} {
      NoAreas(g, p);
    }
    assert {{(0, 2)}, {(2, 2)}} == {{(0, 2)}} + {{(2, 2)}};
  }

  // ---------------------------------------------------------------------------
  // The 2 x 2 example.

  /** Four players, each with one area of one field, and no free field. */
  lemma Board2Areas()
    ensures Areas(Board2, 1) == {{(0, 0)}} && Areas(Board2, 2) == {{(0, 1)}}
    ensures Areas(Board2, 3) == {{(1, 0)}} && Areas(Board2, 4) == {{(1, 1)}}
    ensures forall p :: p != 1 && p != 2 && p != 3 && p != 4 ==> Areas(Board2, p) == {}
    ensures FreeCells(Board2) == {}
  {
    var g := Board2;
    assert forall d :: InGrid(g, d) ==> d.0 in {0, 1} && d.1 in {0, 1};
    assert forall d :: InGrid(g, d) && At(g, d) == 1 <==> d in {(0, 0)};
    assert forall d :: InGrid(g, d) && At(g, d) == 2 <==> d in {(0, 1)};
    assert forall d :: InGrid(g, d) && At(g, d) == 3 <==> d in {(1, 0)};
    assert forall d :: InGrid(g, d) && At(g, d) == 4 <==> d in {(1, 1)};
    Alone(g, 1, {(0, 0)}, (0, 0));
    AreasAre(g, 1, {(0, 0)}, {{(0, 0)}});
    Alone(g, 2, {(0, 1)}, (0, 1));
    AreasAre(g, 2, {(0, 1)}, {{(0, 1)}});
    Alone(g, 3, {(1, 0)}, (1, 0));
    AreasAre(g, 3, {(1, 0)}, {{(1, 0)}});
    Alone(g, 4, {(1, 1)}, (1, 1));
    AreasAre(g, 4, {(1, 1)}, {{(1, 1)}});
    forall p | p != 1 && p != 2 && p != 3 && p != 4 ensures Areas(g, p) == {} {
      NoAreas(g, p);
    }
    assert forall d :: InGrid(g, d) ==> At(g, d) != FREE;
  }

  // ---------------------------------------------------------------------------
  // The 9 x 1 example.

  /** Who holds which field of the 9 x 1 example; none is free. */
  lemma StripOwners()
    ensures forall d :: InGrid(Strip, d) && At(Strip, d) == 1 <==> d in {(0, 0), (0, 1), (0, 2), (0, 4), (0, 7), (0, 8)}
    ensures forall d :: InGrid(Strip, d) && At(Strip, d) == 2 <==> d in {(0, 3), (0, 6)}
    ensures forall d :: InGrid(Strip, d) && At(Strip, d) == 3 <==> d in {(0, 5)}
    ensures forall d :: InGrid(Strip, d) ==> At(Strip, d) in {1, 2, 3}
  {
    assert forall d :: InGrid(Strip, d) ==> d.0 == 0 && 0 <= d.1 < 9;
  }

  /** Fields 0-2 of the strip form one area of player 1. */
  lemma StripLeft()
    ensures forall d :: d in {(0, 0), (0, 1), (0, 2)} ==> Component(Strip, d) == {(0, 0), (0, 1), (0, 2)}
  {
    StripOwners();
    PieceClosed(Strip, 1, {(0, 0), (0, 1), (0, 2), (0, 4), (0, 7), (0, 8)}, {(0, 0), (0, 1), (0, 2)});
    LinkedSameComponent(Strip, (0, 0), (0, 1));
    LinkedSameComponent(Strip, (0, 1), (0, 2));
    ComponentHasSeed(Strip, (0, 0));
    ComponentIs(Strip, (0, 0), {(0, 0), (0, 1), (0, 2)});
  }

  /** Field 4 alone, and fields 7-8 together, are areas of player 1. */
  lemma StripMidRight()
    ensures Component(Strip, (0, 4)) == {(0, 4)}
    ensures forall d :: d in {(0, 7), (0, 8)} ==> Component(Strip, d) == {(0, 7), (0, 8)}
  {
    var one := {(0, 0), (0, 1), (0, 2), (0, 4), (0, 7), (0, 8)};
    StripOwners();
    Alone(Strip, 1, one, (0, 4));
    PieceClosed(Strip, 1, one, {(0, 7), (0, 8)});
    LinkedSameComponent(Strip, (0, 7), (0, 8));
    ComponentHasSeed(Strip, (0, 7));
    ComponentIs(Strip, (0, 7), {(0, 7), (0, 8)});
  }

  /** Player 1 has three areas on the strip: fields 0-2, field 4 and fields 7-8. */
  lemma StripFirst()
    ensures Areas(Strip, 1) == {{(0, 0), (0, 1), (0, 2)}, {(0, 4)}, {(0, 7), (0, 8)}}
    ensures AreaCount(Strip, 1) == 3
  {
    var left, mid, right := {(0, 0), (0, 1), (0, 2)}, {(0, 4)}, {(0, 7), (0, 8)};
    forall A | A in Areas(Strip, 1) ensures A == left || A == mid || A == right {
      var e :| e in Cells(Strip) && At(Strip, e) == 1 && A == Component(Strip, e);
      StripOwners();
      if e in left {
        StripLeft();
      } else {
        StripMidRight();
      }
    }
    StripLeft();
    StripMidRight();
    assert (0, 0) in Cells(Strip) && (0, 4) in Cells(Strip) && (0, 7) in Cells(Strip);
    assert left in Areas(Strip, 1) && mid in Areas(Strip, 1) && right in Areas(Strip, 1);
    DistinctThree(left, mid, right, (0, 0), (0, 4));
  }

  lemma DistinctThree(left: set<Coord>, mid: set<Coord>, right: set<Coord>, a: Coord, b: Coord)
    requires a in left && a !in mid && a !in right && b in mid && b !in right
    ensures |{left, mid, right}| == 3
  {
  }

  /** Player 2 has two single fields on the strip, player 3 one, no other player any, and none is free. */
  lemma StripOthers()
    ensures Areas(Strip, 2) == {{(0, 3)}, {(0, 6)}}
    ensures Areas(Strip, 3) == {{(0, 5)}}
    ensures forall p :: p != 1 && p != 2 && p != 3 ==> Areas(Strip, p) == {}
    ensures FreeCells(Strip) == {}
  {
    var g := Strip;
    StripOwners();
    var two := {(0, 3), (0, 6)};
    Alone(g, 2, two, (0, 3));
    Alone(g, 2, two, (0, 6));
    AreasAre(g, 2, two, {{(0, 3)}, {(0, 6)}});
    Alone(g, 3, {(0, 5)}, (0, 5));
    AreasAre(g, 3, {(0, 5)}, {{(0, 5)}});
    forall p | p != 1 && p != 2 && p != 3 ensures Areas(g, p) == {} {
      NoAreas(g, p);
    }
  }

  // ---------------------------------------------------------------------------
  // The grouping run on the examples.

  /**
   * The grouping of the 3 x 3 example: keys 1, 2, 3 and FREE; player 1's one
   * area, player 2's two areas in either order, player 3's one, and the free field.
   */
  method GroupBoard1() returns (areas: map<int, seq<set<Coord>>>)
    ensures areas.Keys == {1, 2, 3, FREE}
    ensures areas[1] == [{(0, 0), (0, 1), (1, 1), (1, 2), (2, 1)}]
    ensures areas[2] == [{(0, 2)}, {(2, 2)}] || areas[2] == [{(2, 2)}, {(0, 2)}]
    ensures areas[3] == [{(1, 0)}]
    ensures areas[FREE] == [{(2, 0)}]
  {
    areas := GroupAreasByPlayer(Board1, 3, 3);
    Board1First();
    Board1Others();
    forall p ensures p in areas <==> p in {1, 2, 3, FREE} {
      if p != FREE && p != 1 && p != 2 && p != 3 {
        assert Areas(Board1, p) == {};
      }
    }
    OnlyOne(areas[1], {(0, 0), (0, 1), (1, 1), (1, 2), (2, 1)});
    OnlyOne(areas[3], {(1, 0)});
    EitherOrder(areas[2], {(0, 2)}, {(2, 2)});
  }

  /**
   * The grouping of the 9 x 1 example: keys 1, 2, 3; player 1's three areas,
   * player 2's two and player 3's one, each list in some order.
   */
  method GroupStrip() returns (areas: map<int, seq<set<Coord>>>)
    ensures areas.Keys == {1, 2, 3}
    ensures |areas[1]| == 3 && forall A :: A in areas[1] <==> A in {{(0, 0), (0, 1), (0, 2)}, {(0, 4)}, {(0, 7), (0, 8)}}
    ensures areas[2] == [{(0, 3)}, {(0, 6)}] || areas[2] == [{(0, 6)}, {(0, 3)}]
    ensures areas[3] == [{(0, 5)}]
  {
    areas := GroupAreasByPlayer(Strip, 9, 1);
    StripFirst();
    StripOthers();
    forall p ensures p in areas <==> p in {1, 2, 3} {
      if p != 1 && p != 2 && p != 3 && p != FREE {
        assert Areas(Strip, p) == {};
      }
    }
    OnlyOne(areas[3], {(0, 5)});
    EitherOrder(areas[2], {(0, 3)}, {(0, 6)});
  }

  /** The grouping of the 2 x 2 example: each of four players holds one area of one field. */
  method GroupBoard2() returns (areas: map<int, seq<set<Coord>>>)
    ensures areas.Keys == {1, 2, 3, 4}
    ensures areas[1] == [{(0, 0)}] && areas[2] == [{(0, 1)}] && areas[3] == [{(1, 0)}] && areas[4] == [{(1, 1)}]
  {
    areas := GroupAreasByPlayer(Board2, 2, 2);
    Board2Areas();
    forall p ensures p in areas <==> p in {1, 2, 3, 4} {
      if p != 1 && p != 2 && p != 3 && p != 4 && p != FREE {
        assert Areas(Board2, p) == {};
      }
    }
    OnlyOne(areas[1], {(0, 0)});
    OnlyOne(areas[2], {(0, 1)});
    OnlyOne(areas[3], {(1, 0)});
    OnlyOne(areas[4], {(1, 1)});
  }

  lemma OnlyOne(list: seq<set<Coord>>, A: set<Coord>)
    requires |list| == 1 && forall B :: B in list <==> B in {A}
    ensures list == [A]
  {
    assert list[0] in list;
  }

  lemma EitherOrder(list: seq<set<Coord>>, A: set<Coord>, B: set<Coord>)
    requires Distinct(list) && |list| == 2 && forall C :: C in list <==> C in {A, B}
    ensures list == [A, B] || list == [B, A]
  {
    assert list[0] in list && list[1] in list;
  }
}
