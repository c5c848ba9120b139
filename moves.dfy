/**
 * The rules both engines enforce, stated on the grid: the area ceiling
 * (`_is_in_valid_state`), what placing one player's token does to the areas of
 * every owner, and the counts the queries report.
 *
 * The central result is MoveKeepsCeiling: on a grid within the ceiling, putting
 * player p on a free cell keeps it within the ceiling exactly when p owns fewer
 * than the maximum number of areas or the cell touches one of p's cells.
 */
module Moves {
  import opened Territory

  /** The grid with cell c set to v. */
  function Place(g: Grid, c: Coord, v: int): (h: Grid)
    requires InGrid(g, c)
    ensures |h| == |g| && forall r :: 0 <= r < |g| ==> |h[r]| == |g[r]|
    ensures forall d :: InGrid(g, d) ==> InGrid(h, d) && At(h, d) == (if d == c then v else At(g, d))
  {
    g[c.0 := g[c.0][c.1 := v]]
  }

  /** Setting a cell back to the value it held gives the same grid. */
  lemma PlaceSame(g: Grid, c: Coord)
    requires InGrid(g, c)
    ensures Place(g, c, At(g, c)) == g
  {
    assert g[c.0][c.1 := At(g, c)] == g[c.0];
  }

  /** A later write to the same cell overrides an earlier one. */
  lemma PlaceTwice(g: Grid, c: Coord, u: int, v: int)
    requires InGrid(g, c)
    ensures Place(Place(g, c, u), c, v) == Place(g, c, v)
  {
    assert g[c.0][c.1 := u][c.1 := v] == g[c.0][c.1 := v];
  }

  /**
   * No owner that has areas has more than maxAreas of them: the check
   * `_is_in_valid_state` makes over every key of the grouping except FREE.
   */
  ghost predicate WithinCeiling(g: Grid, maxAreas: int) {
    forall p :: p != FREE && Areas(g, p) != {} ==> AreaCount(g, p) <= maxAreas
  }

  /** Some 4-neighbour of c on the grid belongs to p. */
  ghost predicate HasNeighborOwnedBy(g: Grid, c: Coord, p: int) {
    exists n :: InGrid(g, n) && Adjacent(c, n) && At(g, n) == p
  }

  // ---------------------------------------------------------------------------
  // How one placement changes the areas.

  /** A placement on a free cell never splits an area: each old area only grows. */
  lemma GrowComponent(g: Grid, c: Coord, p: int, d: Coord)
    requires InGrid(g, c) && At(g, c) == FREE && InGrid(g, d)
    ensures Component(g, d) <= Component(Place(g, c, p), d)
  {
    var h := Place(g, c, p);
    var K := Component(h, d);
    ComponentHasSeed(h, d);
    forall x, y | x in K && Linked(g, x, y) ensures y in K {
      ComponentClosed(h, d);
      assert Linked(h, x, y);
    }
    forall x | x in K ensures InGrid(g, x) {
      ComponentOwner(h, d, x);
    }
    ComponentLeast(g, d, K);
  }

  /**
   * An area of g that does not touch c through a cell of p is still an area
   * after p is placed on c.
   */
  lemma KeepComponent(g: Grid, c: Coord, p: int, d: Coord)
    requires InGrid(g, c) && At(g, c) == FREE && InGrid(g, d) && At(g, d) != FREE
    requires forall x :: x in Component(g, d) && Adjacent(x, c) ==> At(g, x) != p
    ensures Component(Place(g, c, p), d) == Component(g, d)
  {
    var h := Place(g, c, p);
    var K := Component(g, d);
    ComponentHasSeed(g, d);
    ComponentClosed(g, d);
    assert c !in K by {
      if c in K { ComponentOwner(g, d, c); }
    }
    forall x, y | x in K && Linked(h, x, y) ensures y in K {
      ComponentOwner(g, d, x);
      if y == c {
        assert false;
      }
      assert Linked(g, x, y);
    }
    ComponentLeast(h, d, K);
    GrowComponent(g, c, p, d);
  }

  /** Placing p leaves the areas of every other owner exactly as they were. */
  lemma OtherAreasUnchanged(g: Grid, c: Coord, p: int, q: int)
    requires InGrid(g, c) && At(g, c) == FREE
    requires q != p && q != FREE
    ensures Areas(Place(g, c, p), q) == Areas(g, q)
  {
    var h := Place(g, c, p);
    forall A | A in Areas(h, q) ensures A in Areas(g, q) {
      var d :| d in Cells(h) && At(h, d) == q && A == Component(h, d);
      UntouchedByP(g, c, p, d);
      KeepComponent(g, c, p, d);
    }
    forall A | A in Areas(g, q) ensures A in Areas(h, q) {
      var d :| d in Cells(g) && At(g, d) == q && A == Component(g, d);
      UntouchedByP(g, c, p, d);
      KeepComponent(g, c, p, d);
      assert d in Cells(h) && At(h, d) == q;
    }
  }

  /** No cell in the area of a cell that p does not own belongs to p. */
  lemma UntouchedByP(g: Grid, c: Coord, p: int, d: Coord)
    requires InGrid(g, d) && At(g, d) != p
    ensures forall x :: x in Component(g, d) && Adjacent(x, c) ==> At(g, x) != p
  {
    forall x | x in Component(g, d) ensures InGrid(g, x) && At(g, x) != p {
      ComponentOwner(g, d, x);
    }
  }

  /** With no neighbour of its own, p gains exactly one new area: the cell itself. */
  lemma IsolatedPlacementAddsArea(g: Grid, c: Coord, p: int)
    requires InGrid(g, c) && At(g, c) == FREE && p != FREE
    requires !HasNeighborOwnedBy(g, c, p)
    ensures Areas(Place(g, c, p), p) == Areas(g, p) + {{c}}
    ensures {c} !in Areas(g, p)
    ensures AreaCount(Place(g, c, p), p) == AreaCount(g, p) + 1
  {
    var h := Place(g, c, p);
    assert Component(h, c) == {c} by {
      forall e ensures !Linked(h, c, e) {
        if Linked(h, c, e) {
          assert false;
        }
      }
      IsolatedComponent(h, c);
    }
    forall A | A in Areas(h, p) ensures A in Areas(g, p) + {{c}} {
      var d :| d in Cells(h) && At(h, d) == p && A == Component(h, d);
      if d != c {
        NoNeighbourKeeps(g, c, p, d);
        assert A in Areas(g, p);
      }
    }
    forall A | A in Areas(g, p) + {{c}} ensures A in Areas(h, p) {
      if A != {c} {
        var d :| d in Cells(g) && At(g, d) == p && A == Component(g, d);
        NoNeighbourKeeps(g, c, p, d);
        assert d in Cells(h) && At(h, d) == p;
      } else {
        assert c in Cells(h) && At(h, c) == p;
      }
    }
    if {c} in Areas(g, p) {
      AreaOwnerHomogeneous(g, p, {c}, c);
      assert false;
    }
  }

  lemma NoNeighbourKeeps(g: Grid, c: Coord, p: int, d: Coord)
    requires InGrid(g, c) && At(g, c) == FREE && p != FREE
    requires !HasNeighborOwnedBy(g, c, p)
    requires InGrid(g, d) && At(g, d) == p
    ensures Component(Place(g, c, p), d) == Component(g, d)
  {
    forall x | x in Component(g, d) ensures InGrid(g, x) && At(g, x) == p {
      ComponentOwner(g, d, x);
    }
    KeepComponent(g, c, p, d);
  }

  /**
   * When c touches a cell n of p, every area of p after the placement is either
   * the one holding c or an area p already had other than n's.
   */
  lemma JoinedPlacementAreas(g: Grid, c: Coord, p: int, n: Coord)
    requires InGrid(g, c) && At(g, c) == FREE && p != FREE
    requires InGrid(g, n) && Adjacent(c, n) && At(g, n) == p
    ensures Component(g, n) in Areas(g, p)
    ensures Areas(Place(g, c, p), p) <= {Component(Place(g, c, p), c)} + (Areas(g, p) - {Component(g, n)})
  {
    var h := Place(g, c, p);
    ComponentHasSeed(g, n);
    assert Component(g, n) in Areas(g, p);
    assert Linked(h, n, c);
    LinkedSameComponent(h, n, c);
    forall A | A in Areas(h, p)
      ensures A in {Component(h, c)} + (Areas(g, p) - {Component(g, n)})
    {
      var d :| d in Cells(h) && At(h, d) == p && A == Component(h, d);
      if d != c && c !in Component(h, d) {
        DetachedKeeps(g, c, p, d);
        if Component(g, d) == Component(g, n) {
          ComponentHasSeed(g, n);
          GrowComponent(g, c, p, d);
          assert n in Component(h, d);
          ComponentHasSeed(h, d);
          ComponentClosed(h, d);
          assert false;
        }
        assert A in Areas(g, p);
      } else if d != c {
        ComponentHasSeed(h, d);
        ComponentOfMember(h, d, c);
      }
    }
  }

  /** An area of p that does not reach c after the placement was already an area. */
  lemma DetachedKeeps(g: Grid, c: Coord, p: int, d: Coord)
    requires InGrid(g, c) && At(g, c) == FREE && p != FREE
    requires InGrid(g, d) && d != c && At(g, d) == p
    requires c !in Component(Place(g, c, p), d)
    ensures Component(Place(g, c, p), d) == Component(g, d)
  {
    var h := Place(g, c, p);
    forall x | x in Component(g, d) && Adjacent(x, c) ensures At(g, x) != p {
      if At(g, x) == p {
        ComponentOwner(g, d, x);
        GrowComponent(g, c, p, d);
        assert x in Component(h, d);
        assert Linked(h, x, c);
        ComponentHasSeed(h, d);
        ComponentClosed(h, d);
        assert false;
      }
    }
    KeepComponent(g, c, p, d);
  }

  /** A subset is no larger than its superset. */
  lemma {:induction false} SubsetCard<T>(A: set<T>, B: set<T>)
    requires A <= B
    ensures |A| <= |B|
  {
    if A != {} {
      var x :| x in A;
      SubsetCard(A - {x}, B - {x});
    }
  }

  /** Joining an existing area of p never raises p's area count. */
  lemma JoinedPlacementCount(g: Grid, c: Coord, p: int, n: Coord)
    requires InGrid(g, c) && At(g, c) == FREE && p != FREE
    requires InGrid(g, n) && Adjacent(c, n) && At(g, n) == p
    ensures 1 <= AreaCount(Place(g, c, p), p) <= AreaCount(g, p)
  {
    var h := Place(g, c, p);
    JoinedPlacementAreas(g, c, p, n);
    var rest := Areas(g, p) - {Component(g, n)};
    SubsetCard(Areas(h, p), {Component(h, c)} + rest);
    assert |{Component(h, c)} + rest| <= 1 + |rest|;
    assert |rest| == |Areas(g, p)| - 1;
    ComponentHasSeed(h, c);
    assert Component(h, c) in Areas(h, p);
  }

  // ---------------------------------------------------------------------------
  // The ceiling after a placement.

  /**
   * On a grid within the ceiling, placing p on a free cell keeps the grid within
   * it exactly when p has fewer than maxAreas areas or c touches a cell of p.
   */
  lemma MoveKeepsCeiling(g: Grid, c: Coord, p: int, maxAreas: int)
    requires InGrid(g, c) && At(g, c) == FREE && p != FREE
    requires WithinCeiling(g, maxAreas)
    ensures WithinCeiling(Place(g, c, p), maxAreas) <==>
      AreaCount(g, p) < maxAreas || HasNeighborOwnedBy(g, c, p)
  {
    var h := Place(g, c, p);
    forall q | q != p && q != FREE ensures Areas(h, q) == Areas(g, q) {
      OtherAreasUnchanged(g, c, p, q);
    }
    if HasNeighborOwnedBy(g, c, p) {
      var n :| InGrid(g, n) && Adjacent(c, n) && At(g, n) == p;
      JoinedPlacementCount(g, c, p, n);
      ComponentHasSeed(g, n);
      assert Component(g, n) in Areas(g, p);
      assert WithinCeiling(h, maxAreas);
    } else {
      IsolatedPlacementAddsArea(g, c, p);
      if AreaCount(g, p) < maxAreas {
        assert WithinCeiling(h, maxAreas);
      } else {
        assert Areas(h, p) != {};
      }
    }
  }

  /** An all-free grid is within any ceiling that is not negative. */
  lemma FreeGridWithinCeiling(g: Grid, maxAreas: int)
    requires forall c :: InGrid(g, c) ==> At(g, c) == FREE
    ensures WithinCeiling(g, maxAreas)
  {
    forall p | p != FREE ensures Areas(g, p) == {} {
      AreasEmptyIffNoCells(g, p);
    }
  }

  // ---------------------------------------------------------------------------
  // Counting cells (`get_busy_fields`).

  /** `row.count(p)`. */
  function RowCount(row: seq<int>, p: int): nat {
    if row == [] then 0 else RowCount(row[..|row| - 1], p) + (if row[|row| - 1] == p then 1 else 0)
  }

  /** The number of cells holding p, summed row by row. */
  function GridCount(g: Grid, p: int): nat {
    if g == [] then 0 else GridCount(g[..|g| - 1], p) + RowCount(g[|g| - 1], p)
  }

  /** The cells holding p. */
  function OwnedCells(g: Grid, p: int): (cs: set<Coord>)
    ensures forall c :: c in cs <==> InGrid(g, c) && At(g, c) == p
  {
    set c | c in Cells(g) && At(g, c) == p
  }

  /** Counting row by row counts exactly the cells holding p. */
  lemma {:induction false} GridCountIsOwnedCells(g: Grid, p: int)
    ensures GridCount(g, p) == |OwnedCells(g, p)|
  {
    if g != [] {
      var r := |g| - 1;
      GridCountIsOwnedCells(g[..r], p);
      RowCountIsCells(g[r], p, r);
      OwnedByRows(g, p);
    }
  }

  /** The cells holding p are those above the last row and those in it. */
  lemma OwnedByRows(g: Grid, p: int)
    requires g != []
    ensures var r := |g| - 1;
      OwnedCells(g, p) == OwnedCells(g[..r], p) + RowCells(g[r], p, r) &&
      OwnedCells(g[..r], p) !! RowCells(g[r], p, r)
  {
    var r := |g| - 1;
    forall c | c in OwnedCells(g, p)
      ensures c in OwnedCells(g[..r], p) + RowCells(g[r], p, r)
    {
      if c.0 < r {
        assert g[..r][c.0] == g[c.0];
      }
    }
  }

  /** The cells of row r (holding `row`) that hold p. */
  function RowCells(row: seq<int>, p: int, r: int): (cs: set<Coord>)
    ensures forall c :: c in cs <==> c.0 == r && 0 <= c.1 < |row| && row[c.1] == p
  {
    set i | 0 <= i < |row| && row[i] == p :: (r, i)
  }

  lemma {:induction false} RowCountIsCells(row: seq<int>, p: int, r: int)
    ensures RowCount(row, p) == |RowCells(row, p, r)|
  {
    if row != [] {
      var k := |row| - 1;
      RowCountIsCells(row[..k], p, r);
      if row[k] == p {
        assert RowCells(row, p, r) == RowCells(row[..k], p, r) + {(r, k)};
      } else {
        assert RowCells(row, p, r) == RowCells(row[..k], p, r);
      }
    }
  }

  /** Taking a cell from another value adds one to p's count. */
  lemma PlaceCount(g: Grid, c: Coord, p: int)
    requires InGrid(g, c) && At(g, c) != p
    ensures |OwnedCells(Place(g, c, p), p)| == |OwnedCells(g, p)| + 1
  {
    assert OwnedCells(Place(g, c, p), p) == OwnedCells(g, p) + {c};
  }

  // ---------------------------------------------------------------------------
  // What the grouping tells the engines.

  /** What `get_grouped_areas` returns for g: the areas of each owner, and FREE's one set. */
  ghost predicate Groups(g: Grid, areas: map<int, seq<set<Coord>>>) {
    ListsPlayerAreas(g, areas) &&
    (FREE in areas <==> FreeCells(g) != {}) &&
    (FREE in areas ==> areas[FREE] == [FreeCells(g)])
  }

  /** `grouped_areas.get(p, [])`. */
  function ListedFor(areas: map<int, seq<set<Coord>>>, p: int): seq<set<Coord>> {
    if p in areas then areas[p] else []
  }

  /** How many groups the grouping lists under p: FREE has at most one. */
  ghost function ListedAreaCount(g: Grid, p: int): nat {
    if p == FREE then (if FreeCells(g) == {} then 0 else 1) else AreaCount(g, p)
  }

  lemma ListedLength(g: Grid, areas: map<int, seq<set<Coord>>>, p: int)
    requires Groups(g, areas)
    ensures |ListedFor(areas, p)| == ListedAreaCount(g, p)
  {
    if p != FREE && p !in areas {
      assert Areas(g, p) == {};
    }
  }

  /** The groups listed under p cover exactly the cells holding p. */
  lemma ListedCover(g: Grid, areas: map<int, seq<set<Coord>>>, p: int)
    requires Groups(g, areas)
    ensures forall n :: (exists A :: A in ListedFor(areas, p) && n in A) <==> InGrid(g, n) && At(g, n) == p
  {
    var list := ListedFor(areas, p);
    forall n ensures (exists A :: A in list && n in A) <==> InGrid(g, n) && At(g, n) == p {
      if A :| A in list && n in A {
        if p != FREE {
          AreaOwnerHomogeneous(g, p, A, n);
        }
      }
      if InGrid(g, n) && At(g, n) == p {
        if p == FREE {
          assert FreeCells(g) in list;
        } else {
          CellInExactlyOneArea(g, n);
          assert Component(g, n) in list;
        }
      }
    }
  }

  /** `_is_in_valid_state` reads the ceiling off the grouping without the FREE key. */
  lemma CeilingFromListing(g: Grid, areas: map<int, seq<set<Coord>>>, maxAreas: int)
    requires ListsPlayerAreas(g, areas) && FREE !in areas
    ensures WithinCeiling(g, maxAreas) <==> forall p :: p in areas ==> |areas[p]| <= maxAreas
  {
    if forall p :: p in areas ==> |areas[p]| <= maxAreas {
      forall p | p != FREE && Areas(g, p) != {} ensures AreaCount(g, p) <= maxAreas {
        assert p in areas;
      }
    }
  }

  /** The keys of the grouping: every value some cell holds. */
  lemma GroupKeys(g: Grid, areas: map<int, seq<set<Coord>>>, p: int)
    requires Groups(g, areas)
    ensures p in areas <==> exists c :: InGrid(g, c) && At(g, c) == p
  {
    if p != FREE {
      AreasEmptyIffNoCells(g, p);
    }
  }

  /** Free cells that touch a cell of p. */
  ghost function BorderCells(g: Grid, p: int): set<Coord> {
    set c | c in FreeCells(g) && HasNeighborOwnedBy(g, c, p)
  }

  /**
   * The count `get_free_fields` reports for p: every free cell below the
   * ceiling, the free cells next to p's own at it.
   */
  ghost function FreeFieldCount(g: Grid, p: int, maxAreas: int): nat {
    if ListedAreaCount(g, p) < maxAreas then |FreeCells(g)| else |BorderCells(g, p)|
  }

  /** Free cells where placing p keeps the grid within the ceiling. */
  ghost function LegalMoves(g: Grid, p: int, maxAreas: int): set<Coord> {
    set c | c in FreeCells(g) && WithinCeiling(Place(g, c, p), maxAreas)
  }

  /**
   * Below the ceiling every free cell is a legal move; at it, exactly the free
   * cells next to one of p's own.
   */
  lemma LegalMovesExact(g: Grid, p: int, maxAreas: int)
    requires WithinCeiling(g, maxAreas) && p != FREE
    ensures LegalMoves(g, p, maxAreas) ==
      if AreaCount(g, p) < maxAreas then FreeCells(g) else BorderCells(g, p)
  {
    forall c | c in FreeCells(g)
      ensures WithinCeiling(Place(g, c, p), maxAreas) <==>
        AreaCount(g, p) < maxAreas || HasNeighborOwnedBy(g, c, p)
    {
      MoveKeepsCeiling(g, c, p, maxAreas);
    }
  }
}
