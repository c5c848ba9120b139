/**
 * Territory on a Gamma board: the grid, its cells, and the areas into which
 * each player's cells fall (maximal 4-connected sets with one owner).
 *
 * The board is a dense grid `g[row][column]` whose unclaimed cells hold FREE.
 * An area is specified without paths: a set of cells is Closed when it contains,
 * with every cell, each same-owner 4-neighbour; the area of a claimed cell c is
 * the least closed set that contains c.
 */
module Territory {

  /** A cell as the grouping code writes it: (row, column). */
  type Coord = (int, int)

  type Grid = seq<seq<int>>

  /** The owner value of a cell nobody has claimed. */
  const FREE: int := -1

  predicate InGrid(g: Grid, c: Coord) {
    0 <= c.0 < |g| && 0 <= c.1 < |g[c.0]|
  }

  function At(g: Grid, c: Coord): int
    requires InGrid(g, c)
  {
    g[c.0][c.1]
  }

  /** `height` rows of `width` cells each. */
  predicate IsRectangle(g: Grid, width: int, height: int) {
    |g| == height && forall r :: 0 <= r < |g| ==> |g[r]| == width
  }

  /** Every coordinate of the grid (`all_fields`). */
  function Cells(g: Grid): (cs: set<Coord>)
    ensures forall c :: c in cs <==> InGrid(g, c)
  {
    set r, col | 0 <= r < |g| && 0 <= col < |g[r]| :: (r, col)
  }

  function FreeCells(g: Grid): (cs: set<Coord>)
    ensures forall c :: c in cs <==> InGrid(g, c) && At(g, c) == FREE
  {
    set c | c in Cells(g) && At(g, c) == FREE
  }

  function Occupied(g: Grid): (cs: set<Coord>)
    ensures forall c :: c in cs <==> InGrid(g, c) && At(g, c) != FREE
  {
    set c | c in Cells(g) && At(g, c) != FREE
  }

  function Abs(n: int): nat {
    if n < 0 then -n else n
  }

  /** 4-adjacency: the two cells differ by exactly one on exactly one axis. */
  predicate Adjacent(c: Coord, d: Coord) {
    Abs(c.0 - d.0) + Abs(c.1 - d.1) == 1
  }

  /** c and d are 4-neighbours on the grid, owned by the same player. */
  predicate Linked(g: Grid, c: Coord, d: Coord) {
    InGrid(g, c) && InGrid(g, d) && Adjacent(c, d) && At(g, c) == At(g, d) && At(g, c) != FREE
  }

  /** K holds, with each of its cells, every same-owner neighbour of it. */
  ghost predicate Closed(g: Grid, K: set<Coord>) {
    (forall x :: x in K ==> InGrid(g, x)) &&
    (forall x, y :: x in K && Linked(g, x, y) ==> y in K)
  }

  /** d lies in every closed set that holds c. */
  ghost predicate SameArea(g: Grid, c: Coord, d: Coord) {
    forall K :: Closed(g, K) && c in K ==> d in K
  }

  /** The area of c: the least closed set holding c. */
  ghost function Component(g: Grid, c: Coord): set<Coord> {
    set d | d in Cells(g) && SameArea(g, c, d)
  }

  /** The areas of owner p. */
  ghost function Areas(g: Grid, p: int): set<set<Coord>> {
    set c | c in Cells(g) && At(g, c) == p :: Component(g, c)
  }

  ghost function AreaCount(g: Grid, p: int): nat {
    |Areas(g, p)|
  }

  // ---------------------------------------------------------------------------
  // The least-closed-set theory of areas.

  lemma ComponentHasSeed(g: Grid, c: Coord)
    requires InGrid(g, c)
    ensures c in Component(g, c)
  {
  }

  lemma ComponentLeast(g: Grid, c: Coord, K: set<Coord>)
    requires Closed(g, K) && c in K
    ensures Component(g, c) <= K
  {
  }

  lemma ComponentClosed(g: Grid, c: Coord)
    requires InGrid(g, c)
    ensures Closed(g, Component(g, c))
  {
    forall x, y | x in Component(g, c) && Linked(g, x, y)
      ensures y in Component(g, c)
    {
      forall K | Closed(g, K) && c in K ensures y in K {
        assert x in K;
      }
    }
  }

  /** Every cell of an area has the owner of the area's seed. */
  lemma ComponentOwner(g: Grid, c: Coord, d: Coord)
    requires InGrid(g, c) && d in Component(g, c)
    ensures InGrid(g, d) && At(g, d) == At(g, c)
  {
    var K := set e | e in Cells(g) && At(g, e) == At(g, c);
    assert Closed(g, K);
  }

  /** Outside a closed set's complement nothing leaks in: the complement is closed too. */
  lemma ComplementClosed(g: Grid, K: set<Coord>)
    requires Closed(g, K)
    ensures Closed(g, Cells(g) - K)
  {
    forall x, y | x in Cells(g) - K && Linked(g, x, y) ensures y in Cells(g) - K {
      if y in K {
        assert Linked(g, y, x);
      }
    }
  }

  /** Areas are equivalence classes: any member of an area has that same area. */
  lemma ComponentOfMember(g: Grid, c: Coord, d: Coord)
    requires InGrid(g, c) && d in Component(g, c)
    ensures Component(g, d) == Component(g, c)
  {
    ComponentOwner(g, c, d);
    ComponentClosed(g, c);
    ComponentLeast(g, d, Component(g, c));
    ComponentClosed(g, d);
    ComponentHasSeed(g, d);
    if c !in Component(g, d) {
      ComplementClosed(g, Component(g, d));
      ComponentLeast(g, c, Cells(g) - Component(g, d));
      assert false;
    }
    ComponentLeast(g, c, Component(g, d));
  }

  /** Two same-owner neighbours always share one area. */
  lemma LinkedSameComponent(g: Grid, c: Coord, d: Coord)
    requires Linked(g, c, d)
    ensures d in Component(g, c) && Component(g, c) == Component(g, d)
  {
    ComponentHasSeed(g, c);
    ComponentClosed(g, c);
    ComponentOfMember(g, c, d);
  }

  /** A free cell forms no area with anything: its closed hull is itself. */
  lemma FreeComponent(g: Grid, c: Coord)
    requires InGrid(g, c) && At(g, c) == FREE
    ensures Component(g, c) == {c}
  {
    assert Closed(g, {c});
    ComponentLeast(g, c, {c});
    ComponentHasSeed(g, c);
  }

  /** A claimed cell with no same-owner neighbour is an area on its own. */
  lemma IsolatedComponent(g: Grid, c: Coord)
    requires InGrid(g, c)
    requires forall d :: !Linked(g, c, d)
    ensures Component(g, c) == {c}
  {
    assert Closed(g, {c});
    ComponentLeast(g, c, {c});
    ComponentHasSeed(g, c);
  }

  // ---------------------------------------------------------------------------
  // What the grouping promises, stated on the specification.

  /** Every claimed cell lies in exactly one area, listed under its own owner. */
  lemma CellInExactlyOneArea(g: Grid, c: Coord)
    requires InGrid(g, c) && At(g, c) != FREE
    ensures c in Component(g, c) && Component(g, c) in Areas(g, At(g, c))
    ensures forall p, A :: A in Areas(g, p) && c in A ==> p == At(g, c) && A == Component(g, c)
  {
    ComponentHasSeed(g, c);
    forall p, A | A in Areas(g, p) && c in A ensures p == At(g, c) && A == Component(g, c) {
      var e :| e in Cells(g) && At(g, e) == p && A == Component(g, e);
      ComponentOwner(g, e, c);
      ComponentOfMember(g, e, c);
    }
  }

  /** Every area is owner-homogeneous. */
  lemma AreaOwnerHomogeneous(g: Grid, p: int, A: set<Coord>, d: Coord)
    requires A in Areas(g, p) && d in A
    ensures InGrid(g, d) && At(g, d) == p
  {
    var e :| e in Cells(g) && At(g, e) == p && A == Component(g, e);
    ComponentOwner(g, e, d);
  }

  /** Two areas of one owner are either the same set or disjoint. */
  lemma AreasDisjoint(g: Grid, p: int, A: set<Coord>, B: set<Coord>)
    requires A in Areas(g, p) && B in Areas(g, p) && A != B
    ensures A !! B
  {
    var a :| a in Cells(g) && At(g, a) == p && A == Component(g, a);
    var b :| b in Cells(g) && At(g, b) == p && B == Component(g, b);
    if d :| d in A && d in B {
      ComponentOfMember(g, a, d);
      ComponentOfMember(g, b, d);
    }
  }

  /** Two 4-adjacent cells with the same owner lie in the same area. */
  lemma AdjacentSameOwnerSameArea(g: Grid, c: Coord, d: Coord, A: set<Coord>)
    requires Linked(g, c, d)
    requires A in Areas(g, At(g, c)) && c in A
    ensures d in A
  {
    CellInExactlyOneArea(g, c);
    LinkedSameComponent(g, c, d);
  }

  /** An owner without cells has no areas, one with cells has at least one. */
  lemma AreasEmptyIffNoCells(g: Grid, p: int)
    ensures Areas(g, p) == {} <==> forall c :: InGrid(g, c) ==> At(g, c) != p
  {
    if c :| InGrid(g, c) && At(g, c) == p {
      assert Component(g, c) in Areas(g, p);
    }
  }

  // ---------------------------------------------------------------------------
  // Listings of areas, per owner.

  /** No element occurs twice. */
  predicate Distinct<T(==)>(s: seq<T>) {
    forall i, j :: 0 <= i < j < |s| ==> s[i] != s[j]
  }

  /** A duplicate-free list is as long as the set of its elements. */
  lemma {:induction false} DistinctLength<T>(s: seq<T>, S: set<T>)
    requires Distinct(s) && forall x :: x in s <==> x in S
    ensures |s| == |S|
  {
    if s != [] {
      var t := s[..|s| - 1];
      var last := s[|s| - 1];
      assert forall x :: x in t <==> x in S - {last} by {
        forall x ensures x in t <==> x in S - {last} {
          if x in t {
            var i :| 0 <= i < |t| && t[i] == x;
            assert s[i] == x;
          }
          if x in S - {last} {
            assert x in s;
            var i :| 0 <= i < |s| && s[i] == x;
            assert i != |s| - 1;
            assert t[i] == x;
          }
        }
      }
      DistinctLength(t, S - {last});
    }
  }

  /**
   * For every player p: p is a key exactly when p owns some area, and then its
   * list holds each area of p exactly once.
   */
  ghost predicate ListsPlayerAreas(board: Grid, areas: map<int, seq<set<Coord>>>) {
    forall p :: p != FREE ==>
      (p in areas <==> Areas(board, p) != {}) &&
      (p in areas ==> Distinct(areas[p]) && |areas[p]| == AreaCount(board, p) &&
                      forall A :: A in areas[p] <==> A in Areas(board, p))
  }

  /** Keying the free cells under FREE leaves every player's listing as it was. */
  lemma FreeKeyKeepsListing(board: Grid, areas: map<int, seq<set<Coord>>>, free: set<Coord>)
    requires ListsPlayerAreas(board, areas)
    ensures ListsPlayerAreas(board, areas[FREE := [free]])
  {
    var areas' := areas[FREE := [free]];
    forall p | p != FREE ensures p in areas' <==> p in areas {
    }
  }

  /** The areas of all claimed cells, whatever their owner. */
  ghost function AllComponents(board: Grid): set<set<Coord>> {
    set c | c in Occupied(board) :: Component(board, c)
  }

  /** Every listed owner is a player with a non-empty, duplicate-free list. */
  predicate ListShape(areas: map<int, seq<set<Coord>>>) {
    forall p :: p in areas ==> p != FREE && areas[p] != [] && Distinct(areas[p])
  }

  /** Every listed set is an area of its owner, drawn from `done`. */
  ghost predicate ListedAreAreas(board: Grid, areas: map<int, seq<set<Coord>>>, done: set<set<Coord>>) {
    forall p :: p in areas ==> ListedUnder(board, areas[p], done, p)
  }

  ghost predicate ListedUnder(board: Grid, list: seq<set<Coord>>, done: set<set<Coord>>, p: int) {
    forall A :: A in list ==> A in done && A in Areas(board, p)
  }

  /** Every area in `done` is listed under its owner. */
  ghost predicate DoneAreListed(board: Grid, areas: map<int, seq<set<Coord>>>, done: set<set<Coord>>) {
    forall c :: c in Occupied(board) && Component(board, c) in done ==>
      At(board, c) in areas && Component(board, c) in areas[At(board, c)]
  }

  ghost predicate ListsAreas(board: Grid, areas: map<int, seq<set<Coord>>>, done: set<set<Coord>>) {
    ListShape(areas) && ListedAreAreas(board, areas, done) && DoneAreListed(board, areas, done)
  }

  /** Appending a fresh area of owner `At(board, c)` keeps the listing exact. */
  lemma ListOneMore(board: Grid, areas: map<int, seq<set<Coord>>>, done: set<set<Coord>>,
                    c: Coord)
    requires ListsAreas(board, areas, done)
    requires c in Occupied(board) && Component(board, c) !in done
    ensures var p := At(board, c);
      ListsAreas(board, areas[p := (if p in areas then areas[p] else []) + [Component(board, c)]],
                 done + {Component(board, c)})
  {
    var p, C := At(board, c), Component(board, c);
    var list := if p in areas then areas[p] else [];
    var areas' := areas[p := list + [C]];
    var done' := done + {C};
    CellInExactlyOneArea(board, c);
    assert C !in list by {
      if C in list { assert false; }
    }
    forall q | q in areas' ensures q != FREE && areas'[q] != [] && Distinct(areas'[q]) {
      if q == p {
        forall i, j | 0 <= i < j < |areas'[q]| ensures areas'[q][i] != areas'[q][j] {
          if j == |list| {
            assert list[i] in list;
          } else {
            assert list[i] != list[j];
          }
        }
      }
    }
    forall q | q in areas' ensures ListedUnder(board, areas'[q], done', q) {
      forall A | A in areas'[q] ensures A in done' && A in Areas(board, q) {
        if q != p || A != C {
          assert q in areas && A in areas[q];
          assert ListedUnder(board, areas[q], done, q);
        }
      }
    }
    forall e | e in Occupied(board) && Component(board, e) in done'
      ensures At(board, e) in areas' && Component(board, e) in areas'[At(board, e)]
    {
      if Component(board, e) == C {
        ComponentHasSeed(board, e);
        ComponentOwner(board, c, e);
        assert C in areas'[p];
      } else {
        assert At(board, e) in areas && Component(board, e) in areas[At(board, e)];
        if At(board, e) == p {
          assert Component(board, e) in list;
        }
      }
    }
  }

  /** Once all components are done, every area of every player is listed. */
  lemma AllAreasListed(board: Grid, areas: map<int, seq<set<Coord>>>, comps: set<set<Coord>>)
    requires DoneAreListed(board, areas, comps)
    requires comps == AllComponents(board)
    ensures forall p, A :: p != FREE && A in Areas(board, p) ==> p in areas && A in areas[p]
  {
    forall p, A | p != FREE && A in Areas(board, p) ensures p in areas && A in areas[p] {
      var e :| e in Cells(board) && At(board, e) == p && A == Component(board, e);
      assert e in Occupied(board);
    }
  }

  /** A listing that holds exactly the areas of p, each once, has AreaCount(p) entries. */
  lemma ListedCount(board: Grid, list: seq<set<Coord>>, p: int)
    requires list != [] && Distinct(list)
    requires forall A :: A in list <==> A in Areas(board, p)
    ensures Areas(board, p) != {} && |list| == AreaCount(board, p)
  {
    assert list[0] in Areas(board, p);
    DistinctLength(list, Areas(board, p));
  }

  /** A listing of all components is the per-player partition into areas. */
  lemma AllListed(board: Grid, areas: map<int, seq<set<Coord>>>, comps: set<set<Coord>>)
    requires ListsAreas(board, areas, comps)
    requires comps == AllComponents(board)
    ensures FREE !in areas && ListsPlayerAreas(board, areas)
  {
    AllAreasListed(board, areas, comps);
    forall p | p != FREE
      ensures (p in areas <==> Areas(board, p) != {}) &&
        (p in areas ==> Distinct(areas[p]) && |areas[p]| == AreaCount(board, p) &&
                        forall A :: A in areas[p] <==> A in Areas(board, p))
    {
      if p in areas {
        PlayerListed(board, areas[p], comps, p);
      } else if A :| A in Areas(board, p) {
        assert false;
      }
    }
  }

  /** One player's list, once it holds all of the player's areas. */
  lemma PlayerListed(board: Grid, list: seq<set<Coord>>, comps: set<set<Coord>>, p: int)
    requires list != [] && Distinct(list) && ListedUnder(board, list, comps, p)
    requires forall A :: A in Areas(board, p) ==> A in list
    ensures Areas(board, p) != {} && |list| == AreaCount(board, p)
    ensures forall A :: A in list <==> A in Areas(board, p)
  {
    ListedCount(board, list, p);
  }
}
