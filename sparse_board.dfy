/**
 * The sparse, bounded board (src/gamma/board_defaultdict.py): a dictionary of
 * rows, each a dictionary of owners. A missing key inside the bounds reads as a
 * default; a row reads FREE without storing anything, while the board stores a
 * fresh empty row under the missing row index. A key outside the bounds that
 * was never stored is a KeyError, modelled as None.
 */
module SparseBoard {
  import opened Wrappers

  /** How a bounded dictionary answers `d[key]`: the stored value, the default, or a KeyError. */
  function Lookup<V>(m: map<int, V>, lo: int, hi: int, dflt: V, key: int): (r: Option<V>)
    ensures key in m ==> r == Some(m[key])
    ensures key !in m ==> (r.None? <==> key < lo || hi < key)
    ensures key !in m && r.Some? ==> r.value == dflt
  {
    if key in m then Some(m[key])
    else if key > hi || key < lo then None
    else Some(dflt)
  }

  /** Writing a key makes it read the written value and leaves every other key as it was. */
  lemma LookupAfterStore<V>(m: map<int, V>, lo: int, hi: int, dflt: V, key: int, v: V, other: int)
    ensures Lookup(m[key := v], lo, hi, dflt, key) == Some(v)
    ensures other != key ==> Lookup(m[key := v], lo, hi, dflt, other) == Lookup(m, lo, hi, dflt, other)
  {
  }

  /** Deleting a key makes it read the default again inside the bounds, and a KeyError outside. */
  lemma LookupAfterDelete<V>(m: map<int, V>, lo: int, hi: int, dflt: V, key: int, other: int)
    ensures Lookup(m - {key}, lo, hi, dflt, key) == if lo <= key <= hi then Some(dflt) else None
    ensures other != key ==> Lookup(m - {key}, lo, hi, dflt, other) == Lookup(m, lo, hi, dflt, other)
  {
  }

  /** A row (`save` unset): missing columns in bounds read as the free value and are not stored. */
  class Row {
    var minKey: int
    var maxKey: int
    var cells: map<int, int>
    const freeField: int

    /** `make_row`: an empty row bounded to the columns 0 .. width - 1. */
    constructor (width: int, freeField: int)
      ensures minKey == 0 && maxKey == width - 1 && cells == map[] && this.freeField == freeField
    {
      minKey, maxKey := 0, -1;
      cells := map[];
      this.freeField := freeField;
      new;
      SetBoundaries(0, width - 1);
    }

    /** `set_boundaries`. */
    method SetBoundaries(lower: int, upper: int)
      modifies this
      ensures minKey == lower && maxKey == upper && cells == old(cells)
    {
      minKey, maxKey := lower, upper;
    }

    /** What `row[key]` reads. */
    function Read(key: int): (r: Option<int>)
      reads this
      ensures r.None? <==> key !in cells && (key < minKey || maxKey < key)
      ensures r.Some? && key !in cells ==> r.value == freeField
    {
      Lookup(cells, minKey, maxKey, freeField, key)
    }

    /** `row[key]`, with `__missing__`: nothing is stored. */
    method Get(key: int) returns (r: Option<int>)
      ensures r == Read(key)
    {
      if key in cells {
        return Some(cells[key]);
      }
      if key > maxKey || key < minKey {
        return None;
      }
      return Some(freeField);
    }

    /** `row[key] = v`: no bounds check on writing. */
    method Set(key: int, v: int)
      modifies this
      ensures cells == old(cells)[key := v] && minKey == old(minKey) && maxKey == old(maxKey)
      ensures Read(key) == Some(v)
      ensures forall k :: k != key ==> Read(k) == old(Read(k))
    {
      cells := cells[key := v];
    }

    /** `del row[key]`: false is the KeyError of deleting a key that is not stored. */
    method Delete(key: int) returns (ok: bool)
      modifies this
      ensures ok <==> key in old(cells)
      ensures cells == old(cells) - {key} && minKey == old(minKey) && maxKey == old(maxKey)
      ensures Read(key) == if minKey <= key <= maxKey then Some(freeField) else None
      ensures forall k :: k != key ==> Read(k) == old(Read(k))
    {
      ok := key in cells;
      cells := cells - {key};
    }
  }

  /** The board (`save` set): a missing row index in bounds gets a fresh empty row, stored. */
  class Board {
    var minKey: int
    var maxKey: int
    var rows: map<int, Row>
    const width: int
    const freeField: int
    ghost var Repr: set<object>

    /** Every row is bounded to the board's columns, defaults to its free value, and stands alone. */
    ghost predicate Valid()
      reads this, Repr
    {
      this in Repr &&
      (forall y :: y in rows ==> rows[y] in Repr) &&
      (forall y :: y in rows ==>
        rows[y].minKey == 0 && rows[y].maxKey == width - 1 && rows[y].freeField == freeField) &&
      (forall y, z :: y in rows && z in rows && y != z ==> rows[y] != rows[z])
    }

    /** What `board[y][x]` reads: a row not yet stored reads like an empty one. */
    ghost function Cell(y: int, x: int): (r: Option<int>)
      reads this, Repr
      requires Valid()
      ensures r.None? <==> ((y in rows ==> x !in rows[y].cells) &&
        (x < 0 || width <= x || (y !in rows && (y < minKey || maxKey < y))))
      ensures r.Some? && (y in rows ==> x !in rows[y].cells) ==> r.value == freeField
    {
      if y in rows then rows[y].Read(x)
      else if y > maxKey || y < minKey then None
      else Lookup(map[], 0, width - 1, freeField, x)
    }

    /** `make_empty_board`: rows 0 .. height - 1 of columns 0 .. width - 1, all free. */
    constructor (width: int, height: int, freeField: int)
      ensures Valid() && fresh(Repr)
      ensures minKey == 0 && maxKey == height - 1 && rows == map[]
      ensures this.width == width && this.freeField == freeField
      ensures forall y, x :: 0 <= y < height && 0 <= x < width ==> Cell(y, x) == Some(freeField)
    {
      minKey, maxKey := 0, height - 1;
      rows := map[];
      this.width := width;
      this.freeField := freeField;
      Repr := {this};
    }

    /**
     * `board[y]`: a stored row, a fresh empty row stored under an index in
     * bounds, or None for the KeyError. No field reads differently afterwards.
     */
    method GetRow(y: int) returns (r: Option<Row>)
      requires Valid()
      modifies this
      ensures Valid() && minKey == old(minKey) && maxKey == old(maxKey) && fresh(Repr - old(Repr))
      ensures r.None? <==> y !in old(rows) && (y < minKey || maxKey < y)
      ensures y in old(rows) ==> r == Some(old(rows)[y]) && rows == old(rows) && Repr == old(Repr)
      ensures y !in old(rows) && r.Some? ==> (fresh(r.value) && r.value.cells == map[] &&
        rows == old(rows)[y := r.value] && Repr == old(Repr) + {r.value})
      ensures r.Some? ==> y in rows && rows[y] == r.value
      ensures forall k, x :: Cell(k, x) == old(Cell(k, x))
    {
      if y in rows {
        return Some(rows[y]);
      }
      if y > maxKey || y < minKey {
        return None;
      }
      var row := new Row(width, freeField);
      rows := rows[y := row];
      Repr := Repr + {row};
      return Some(row);
    }

    /** `board[y][x]`. */
    method ReadCell(y: int, x: int) returns (r: Option<int>)
      requires Valid()
      modifies this
      ensures Valid() && minKey == old(minKey) && maxKey == old(maxKey) && fresh(Repr - old(Repr))
      ensures r == old(Cell(y, x))
      ensures forall k, c :: Cell(k, c) == old(Cell(k, c))
    {
      var row := GetRow(y);
      if row.None? {
        return None;
      }
      r := row.value.Get(x);
    }

    /** `board[y][x] = v`: false is the KeyError of a row index out of bounds. */
    method SetCell(y: int, x: int, v: int) returns (ok: bool)
      requires Valid()
      modifies this, Repr
      ensures Valid() && minKey == old(minKey) && maxKey == old(maxKey) && fresh(Repr - old(Repr))
      ensures ok <==> y in old(rows) || minKey <= y <= maxKey
      ensures ok ==> Cell(y, x) == Some(v)
      ensures forall k, c :: (k, c) != (y, x) ==> Cell(k, c) == old(Cell(k, c))
    {
      var row := GetRow(y);
      if row.None? {
        return false;
      }
      ghost var before := rows;
      row.value.Set(x, v);
      assert forall k :: k in before && k != y ==> before[k] != row.value;
      return true;
    }

    /**
     * `del board[y][x]`, the rollback of a move: false is a KeyError. After it
     * the field reads as free again when its column is in bounds.
     */
    method DeleteCell(y: int, x: int) returns (ok: bool)
      requires Valid()
      modifies this, Repr
      ensures Valid() && minKey == old(minKey) && maxKey == old(maxKey) && fresh(Repr - old(Repr))
      ensures ok <==> y in old(rows) && x in old(rows[y].cells)
      ensures y in rows ==> Cell(y, x) == if 0 <= x < width then Some(freeField) else None
      ensures forall k, c :: (k, c) != (y, x) ==> Cell(k, c) == old(Cell(k, c))
    {
      var row := GetRow(y);
      if row.None? {
        return false;
      }
      ghost var before := rows;
      ok := row.value.Delete(x);
      assert forall k :: k in before && k != y ==> before[k] != row.value;
    }
  }

  /** A field that was set and then deleted reads as free again. */
  method SetThenDelete(b: Board, y: int, x: int, v: int) returns (r: Option<int>)
    requires b.Valid() && 0 <= y <= b.maxKey && 0 <= x < b.width && b.minKey == 0
    modifies b, b.Repr
    ensures r == Some(b.freeField)
  {
    var stored := b.SetCell(y, x, v);
    var deleted := b.DeleteCell(y, x);
    r := b.ReadCell(y, x);
  }
}
