/**
 * Grouping of a board's claimed cells into areas, as the union-find based
 * grouping does it (src/gamma/group_areas.py).
 */
module GroupAreas {
  import opened Territory
  import UnionFind

  // ---------------------------------------------------------------------------
  // Neighbours and coordinate encoding.

  /**
   * The in-range 4-neighbours of (x, y), in the order left, right, down, up
   * (offsets (-1,0), (1,0), (0,-1), (0,1)); no wrap-around at the edges.
   */
  function Neighbors(width: int, height: int, x: int, y: int): (ns: seq<(int, int)>)
    ensures |ns| <= 4
  {
    InRange(width, height, [(x - 1, y), (x + 1, y), (x, y - 1), (x, y + 1)])
  }

  /** The candidates that lie on a width-by-height board, in their order. */
  function InRange(width: int, height: int, cands: seq<(int, int)>): (ns: seq<(int, int)>)
    ensures |ns| <= |cands|
    ensures forall n :: n in ns <==> n in cands && 0 <= n.0 < width && 0 <= n.1 < height
  {
    if cands == [] then []
    else
      var rest := InRange(width, height, cands[1..]);
      if 0 <= cands[0].0 < width && 0 <= cands[0].1 < height then [cands[0]] + rest else rest
  }

  /** Filtering keeps a duplicate-free candidate list duplicate-free. */
  lemma {:induction false} InRangeDistinct(width: int, height: int, cands: seq<(int, int)>)
    requires Distinct(cands)
    ensures Distinct(InRange(width, height, cands))
  {
    if cands != [] {
      var rest := InRange(width, height, cands[1..]);
      assert Distinct(cands[1..]) by {
        forall i, j | 0 <= i < j < |cands[1..]| ensures cands[1..][i] != cands[1..][j] {
          assert cands[1..][i] == cands[i + 1] && cands[1..][j] == cands[j + 1];
        }
      }
      InRangeDistinct(width, height, cands[1..]);
      assert cands[0] !in cands[1..];
      assert cands[0] !in rest;
    }
  }

  /** Two cells are 4-adjacent exactly when one is a unit step from the other. */
  lemma AdjacentSteps(c: (int, int), n: (int, int))
    ensures Adjacent(c, n) <==>
      n == (c.0 - 1, c.1) || n == (c.0 + 1, c.1) || n == (c.0, c.1 - 1) || n == (c.0, c.1 + 1)
  {
  }

  /**
   * The generated neighbours are exactly the in-range cells 4-adjacent to (x, y),
   * each listed once.
   */
  lemma NeighborsExact(width: int, height: int, x: int, y: int)
    ensures var ns := Neighbors(width, height, x, y);
      (forall n: (int, int) :: n in ns <==>
        0 <= n.0 < width && 0 <= n.1 < height && Adjacent((x, y), n)) &&
      Distinct(ns)
  {
    var cands := [(x - 1, y), (x + 1, y), (x, y - 1), (x, y + 1)];
    forall n: (int, int) ensures n in cands <==> Adjacent((x, y), n) {
      AdjacentSteps((x, y), n);
    }
    InRangeDistinct(width, height, cands);
  }

  const Shift: int := 0x1_0000_0000

  /** A coordinate as one integer: the first component shifted left by 32 bits. */
  function Encode(c: Coord): (e: int)
    ensures 0 <= c.1 < Shift ==> c.0 * Shift <= e < (c.0 + 1) * Shift
  {
    c.0 * Shift + c.1
  }

  /** Arithmetic shift right by 32 and the low 32 bits (floor semantics, as Python's). */
  function Decode(e: int): (c: Coord)
    ensures 0 <= c.1 < Shift
    ensures Encode(c) == e
  {
    (e / Shift, e % Shift)
  }

  lemma DecodeEncode(c: Coord)
    requires 0 <= c.1 < Shift
    ensures Decode(Encode(c)) == c
  {
  }

  /** Encoding is injective on coordinates whose second component fits in 32 bits. */
  lemma EncodeInjective(c: Coord, d: Coord)
    requires 0 <= c.1 < Shift && 0 <= d.1 < Shift
    ensures Encode(c) == Encode(d) ==> c == d
  {
    DecodeEncode(c);
    DecodeEncode(d);
  }

  // ---------------------------------------------------------------------------
  // group_areas_by_player

  /** Every pair the union-find joined lies in one area. */
  ghost predicate JoinsWithinAreas(board: Grid, uf: UnionFind.UnionFind<Coord>) {
    forall j, k :: uf.Same(j, k) ==> Component(board, j) == Component(board, k)
  }

  /**
   * The partition of the claimed cells into areas, per owner, plus the FREE key
   * holding the one set of all unclaimed cells when there is any.
   */
  method GroupAreasByPlayer(board: Grid, width: int, height: int)
    returns (areas: map<int, seq<set<Coord>>>)
    requires IsRectangle(board, width, height)
    ensures ListsPlayerAreas(board, areas)
    ensures FREE in areas <==> FreeCells(board) != {}
    ensures FREE in areas ==> areas[FREE] == [FreeCells(board)]
  {
    var all := Cells(board);
    var occupied, uf := RegisterClaimed(board, width, height);
    uf := JoinNeighbours(board, width, height, occupied, uf);
    ClassesAreAreas(board, uf, occupied);
    areas := CollectAreas(board, occupied, uf.Components());

    // Every unclaimed cell, as one undifferentiated group.
    var free := all - occupied;
    assert free == FreeCells(board);
    if free != {} {
      FreeKeyKeepsListing(board, areas, free);
      areas := areas[FREE := [free]];
    }
  }

  /** The claimed cells, each registered in the union-find as its own set. */
  method RegisterClaimed(board: Grid, width: int, height: int)
    returns (occupied: set<Coord>, uf: UnionFind.UnionFind<Coord>)
    requires IsRectangle(board, width, height)
    ensures occupied == Occupied(board)
    ensures uf.rep.Keys == occupied && JoinsWithinAreas(board, uf)
  {
    uf := UnionFind.UnionFind(map[]);
    occupied := {};
    for y := 0 to height
      invariant RegisteredBefore(board, occupied, uf, y, 0)
    {
      occupied, uf := RegisterRow(board, width, height, y, occupied, uf);
    }
    forall c ensures c in occupied <==> c in Occupied(board) {
    }
    forall j, k | uf.Same(j, k) ensures Component(board, j) == Component(board, k) {
      assert j == uf.rep[j] == uf.rep[k] == k;
    }
  }

  /** Exactly the claimed cells before column x of row y are registered, each alone. */
  ghost predicate RegisteredBefore(board: Grid, occupied: set<Coord>,
                                   uf: UnionFind.UnionFind<Coord>, y: int, x: int) {
    (forall c :: c in occupied <==> c in Occupied(board) && (c.0 < y || (c.0 == y && c.1 < x))) &&
    uf.rep.Keys == occupied && (forall j :: j in uf.rep ==> uf.rep[j] == j)
  }

  /** Registers the claimed cells of row y. */
  method RegisterRow(board: Grid, width: int, height: int, y: int,
                     occupied0: set<Coord>, uf0: UnionFind.UnionFind<Coord>)
    returns (occupied: set<Coord>, uf: UnionFind.UnionFind<Coord>)
    requires IsRectangle(board, width, height) && 0 <= y < height
    requires RegisteredBefore(board, occupied0, uf0, y, 0)
    ensures RegisteredBefore(board, occupied, uf, y + 1, 0)
  {
    occupied, uf := occupied0, uf0;
    for x := 0 to width
      invariant RegisteredBefore(board, occupied, uf, y, x)
    {
      if board[y][x] != FREE {
        occupied := occupied + {(y, x)};
        uf := uf.Add((y, x));
      }
    }
  }

  /** Joins every claimed cell with each of its same-owner neighbours. */
  method JoinNeighbours(board: Grid, width: int, height: int, occupied: set<Coord>,
                        uf0: UnionFind.UnionFind<Coord>)
    returns (uf: UnionFind.UnionFind<Coord>)
    requires IsRectangle(board, width, height) && occupied == Occupied(board)
    requires uf0.rep.Keys == occupied && JoinsWithinAreas(board, uf0)
    ensures uf.rep.Keys == occupied && JoinsWithinAreas(board, uf)
    ensures forall c, n :: c in occupied && Linked(board, c, n) ==> uf.Same(c, n)
  {
    uf := uf0;
    var todo := occupied;
    while todo != {}
      invariant todo <= occupied
      invariant uf.rep.Keys == occupied && JoinsWithinAreas(board, uf)
      invariant forall c, n :: c in occupied - todo && Linked(board, c, n) ==> uf.Same(c, n)
      decreases todo
    {
      var c :| c in todo;
      uf := JoinCell(board, width, height, occupied, uf, c);
      todo := todo - {c};
    }
  }

  /** Joining two cells of one area keeps every joined pair within one area. */
  lemma UnionWithinAreas(board: Grid, uf: UnionFind.UnionFind<Coord>, a: Coord, b: Coord)
    requires a in uf.rep && b in uf.rep && JoinsWithinAreas(board, uf)
    requires Component(board, a) == Component(board, b)
    ensures JoinsWithinAreas(board, uf.Union(a, b)) && uf.Union(a, b).Same(a, b)
    ensures Coarsens(uf, uf.Union(a, b))
  {
    var u := uf.Union(a, b);
    forall j, k | u.Same(j, k) ensures Component(board, j) == Component(board, k) {
      if !uf.Same(j, k) {
        if uf.Same(j, a) && uf.Same(k, b) {
        } else {
          assert uf.Same(j, b) && uf.Same(k, a);
        }
      }
    }
  }

  /** Joins one claimed cell with each same-owner cell among its neighbours. */
  method JoinCell(board: Grid, width: int, height: int, occupied: set<Coord>,
                  uf0: UnionFind.UnionFind<Coord>, c: Coord)
    returns (uf: UnionFind.UnionFind<Coord>)
    requires IsRectangle(board, width, height) && occupied == Occupied(board) && c in occupied
    requires uf0.rep.Keys == occupied && JoinsWithinAreas(board, uf0)
    ensures uf.rep.Keys == occupied && JoinsWithinAreas(board, uf)
    ensures Coarsens(uf0, uf)
    ensures forall n :: Linked(board, c, n) ==> uf.Same(c, n)
  {
    uf := uf0;
    var (y, x) := c;
    var nbrs := Neighbors(width, height, x, y);
    for k := 0 to |nbrs|
      invariant uf.rep.Keys == occupied && JoinsWithinAreas(board, uf)
      invariant Coarsens(uf0, uf) && JoinedPrefix(board, uf, c, nbrs, k)
    {
      uf := JoinNth(board, width, height, occupied, uf0, uf, c, nbrs, k);
    }
    NeighboursCovered(board, width, height, uf, c, nbrs);
  }

  /** The loop step of JoinCell: joins c with its k-th generated neighbour if linked. */
  method JoinNth(board: Grid, width: int, height: int, occupied: set<Coord>,
                 uf0: UnionFind.UnionFind<Coord>, prev: UnionFind.UnionFind<Coord>,
                 c: Coord, nbrs: seq<(int, int)>, k: int)
    returns (uf: UnionFind.UnionFind<Coord>)
    requires IsRectangle(board, width, height) && occupied == Occupied(board) && c in occupied
    requires nbrs == Neighbors(width, height, c.1, c.0) && 0 <= k < |nbrs|
    requires prev.rep.Keys == occupied && JoinsWithinAreas(board, prev)
    requires Coarsens(uf0, prev) && JoinedPrefix(board, prev, c, nbrs, k)
    ensures uf.rep.Keys == occupied && JoinsWithinAreas(board, uf)
    ensures Coarsens(uf0, uf) && JoinedPrefix(board, uf, c, nbrs, k + 1)
  {
    var (nx, ny) := nbrs[k];
    NeighborsExact(width, height, c.1, c.0);
    assert nbrs[k] in nbrs;
    uf := JoinIfLinked(board, occupied, prev, c, (nx, ny));
    JoinedPrefixStep(board, uf0, prev, uf, c, nbrs, k);
  }

  /** Every pair joined in `uf0` is joined in `uf`. */
  ghost predicate Coarsens(uf0: UnionFind.UnionFind<Coord>, uf: UnionFind.UnionFind<Coord>) {
    forall j, k :: uf0.Same(j, k) ==> uf.Same(j, k)
  }

  /** The first k generated neighbours of c are joined to c where linked. */
  ghost predicate JoinedPrefix(board: Grid, uf: UnionFind.UnionFind<Coord>, c: Coord,
                               nbrs: seq<(int, int)>, k: int)
    requires 0 <= k <= |nbrs|
  {
    forall i :: 0 <= i < k ==> JoinedIfLinked(board, uf, c, nbrs[i])
  }

  lemma JoinedPrefixStep(board: Grid, uf0: UnionFind.UnionFind<Coord>,
                         prev: UnionFind.UnionFind<Coord>, uf: UnionFind.UnionFind<Coord>,
                         c: Coord, nbrs: seq<(int, int)>, k: int)
    requires 0 <= k < |nbrs| && JoinedPrefix(board, prev, c, nbrs, k)
    requires Coarsens(uf0, prev) && Coarsens(prev, uf) && JoinedIfLinked(board, uf, c, nbrs[k])
    ensures Coarsens(uf0, uf) && JoinedPrefix(board, uf, c, nbrs, k + 1)
  {
    forall i | 0 <= i < k + 1 ensures JoinedIfLinked(board, uf, c, nbrs[i]) {
      if i < k {
        assert JoinedIfLinked(board, prev, c, nbrs[i]);
      }
    }
  }

  /** Neighbour n, written (x, y) as the neighbour generator yields it, is joined to c if linked. */
  ghost predicate JoinedIfLinked(board: Grid, uf: UnionFind.UnionFind<Coord>, c: Coord, n: (int, int)) {
    Linked(board, c, (n.1, n.0)) ==> uf.Same(c, (n.1, n.0))
  }

  /** Unions c with its neighbour (ny, nx) when both hold the same player. */
  method JoinIfLinked(board: Grid, occupied: set<Coord>, uf0: UnionFind.UnionFind<Coord>,
                      c: Coord, n: (int, int))
    returns (uf: UnionFind.UnionFind<Coord>)
    requires occupied == Occupied(board) && InGrid(board, c) && InGrid(board, (n.1, n.0))
    requires Adjacent(c, (n.1, n.0))
    requires uf0.rep.Keys == occupied && JoinsWithinAreas(board, uf0)
    ensures uf.rep.Keys == occupied && JoinsWithinAreas(board, uf)
    ensures Coarsens(uf0, uf) && JoinedIfLinked(board, uf, c, n)
  {
    var (y, x) := c;
    var (nx, ny) := n;
    uf := uf0;
    if board[y][x] == board[ny][nx] && board[y][x] != FREE {
      LinkedSameComponent(board, c, (ny, nx));
      UnionWithinAreas(board, uf, c, (ny, nx));
      uf := uf.Union(c, (ny, nx));
    }
  }

  /** Every same-owner neighbour of c is among the generated neighbours. */
  lemma NeighboursCovered(board: Grid, width: int, height: int, uf: UnionFind.UnionFind<Coord>,
                          c: Coord, nbrs: seq<(int, int)>)
    requires IsRectangle(board, width, height) && nbrs == Neighbors(width, height, c.1, c.0)
    requires JoinedPrefix(board, uf, c, nbrs, |nbrs|)
    ensures forall n :: Linked(board, c, n) ==> uf.Same(c, n)
  {
    NeighborsExact(width, height, c.1, c.0);
    forall n | Linked(board, c, n) ensures uf.Same(c, n) {
      assert (n.1, n.0) in nbrs;
      var i :| 0 <= i < |nbrs| && nbrs[i] == (n.1, n.0);
      assert JoinedIfLinked(board, uf, c, nbrs[i]);
    }
  }

  /** Appends the component C under the owner of its cells. */
  method ListArea(board: Grid, areas: map<int, seq<set<Coord>>>, ghost done: set<set<Coord>>,
                  C: set<Coord>)
    returns (areas': map<int, seq<set<Coord>>>)
    requires ListsAreas(board, areas, done) && C !in done
    requires C in AllComponents(board)
    ensures ListsAreas(board, areas', done + {C})
  {
    ghost var k :| k in Occupied(board) && C == Component(board, k);
    ComponentHasSeed(board, k);
    var c :| c in C;
    ComponentOfMember(board, k, c);
    ComponentOwner(board, k, c);
    ListOneMore(board, areas, done, c);
    var player := board[c.0][c.1];
    var list := if player in areas then areas[player] else [];
    areas' := areas[player := list + [C]];
  }

  /** Lists each class under the owner of its cells. */
  method CollectAreas(board: Grid, occupied: set<Coord>, comps: set<set<Coord>>)
    returns (areas: map<int, seq<set<Coord>>>)
    requires occupied == Occupied(board)
    requires comps == AllComponents(board)
    ensures FREE !in areas && ListsPlayerAreas(board, areas)
  {
    areas := map[];
    var pending := comps;
    ghost var done: set<set<Coord>> := {};
    while pending != {}
      invariant done !! pending && done + pending == comps
      invariant ListsAreas(board, areas, done)
      decreases pending
    {
      var C :| C in pending;
      areas := ListArea(board, areas, done, C);
      done, pending := done + {C}, pending - {C};
    }
    AllListed(board, areas, comps);
  }

  /** Once every same-owner neighbour pair is joined, the union-find classes are the areas. */
  lemma ClassesAreAreas(board: Grid, uf: UnionFind.UnionFind<Coord>, occupied: set<Coord>)
    requires occupied == Occupied(board) && uf.rep.Keys == occupied
    requires JoinsWithinAreas(board, uf)
    requires forall c, n :: c in occupied && Linked(board, c, n) ==> uf.Same(c, n)
    ensures forall c :: c in occupied ==> uf.Class(c) == Component(board, c)
    ensures uf.Components() == AllComponents(board)
  {
    forall c | c in occupied ensures uf.Class(c) == Component(board, c) {
      assert uf.Class(c) <= Component(board, c) by {
        forall d | d in uf.Class(c) ensures d in Component(board, c) {
          assert uf.Same(c, d);
          ComponentHasSeed(board, d);
        }
      }
      assert Closed(board, uf.Class(c)) by {
        forall x, y | x in uf.Class(c) && Linked(board, x, y) ensures y in uf.Class(c) {
          assert uf.Same(x, y);
        }
      }
      ComponentLeast(board, c, uf.Class(c));
    }
  }
}
