/**
 * Board geometry of the 8×8 game board (src/js/Board.js): the table from cell
 * index to [row, col], the inverse lookup `getIdx`, and `getRange`, the square
 * neighbourhood used for both move and attack reach.
 */
module BoardGeometry {
  import opened Wrappers

  /** A cell as the pair [row, col] that the cell table stores. */
  type Coord = (int, int)

  predicate IsCell(z: int) { 0 <= z < 64 }

  predicate OnBoard(c: Coord) { 0 <= c.0 < 8 && 0 <= c.1 < 8 }

  function Row(z: int): int { z / 8 }

  function Col(z: int): int { z % 8 }

  function CellOf(z: int): Coord { (Row(z), Col(z)) }

  /** The cell table: key z holds [z div 8, z mod 8] for z in 0..63, and there are no other keys. */
  function CellTable(): map<int, Coord> { map z | 0 <= z < 64 :: CellOf(z) }

  /** Cell z lies in the square of half-width r centred on cell idx (Chebyshev distance at most r). */
  predicate Near(idx: int, r: nat, z: int) {
    Within(Row(idx), Row(z), r) && Within(Col(idx), Col(z), r)
  }

  /** |a - b| <= r */
  predicate Within(a: int, b: int, r: nat) { a - r <= b <= a + r }

  /**
   * getRange's backward clean-up scan reaches the origin, and splices it, exactly
   * when no row of the square leaves the board; otherwise it stops at an entry
   * whose row is off the board and the origin stays in the list.
   */
  predicate OriginSpliced(idx: int, r: nat) { RowsFit(Row(idx), r) }

  /** Every row from row - r to row + r is on the board. */
  predicate RowsFit(row: int, r: nat) { row - r >= 0 && row + r <= 7 }

  /** z is one of the indices getRange(idx, r) returns. */
  predicate InRange(idx: int, r: nat, z: int) {
    1 <= z < 64 && Near(idx, r, z) && (z == idx ==> !OriginSpliced(idx, r))
  }

  function Width(r: nat): nat { 2 * r + 1 }

  /**
   * The list getRange pushes before its clean-up: the column offset runs in the
   * outer loop, the row offset in the inner one, each from -r to r.
   */
  function Square(o: Coord, r: nat): (s: seq<Coord>)
    ensures |s| == Width(r) * Width(r)
  {
    seq(Width(r) * Width(r), k => (o.0 - r + k % Width(r), o.1 - r + k / Width(r)))
  }

  // ---------------------------------------------------------------------------
  // Arithmetic helpers for the square's layout

  lemma MulAtLeast(a: int, w: int)
    requires a >= 1 && w > 0
    ensures a * w >= w
  {
  }

  lemma MulMono(a: int, b: int, w: int)
    requires a >= b && w > 0
    ensures a * w >= b * w
  {
  }

  lemma DivModOf(q: int, m: int, w: int)
    requires w > 0 && 0 <= m < w
    ensures (q * w + m) / w == q && (q * w + m) % w == m
  {
    var n := q * w + m;
    var d, e := n / w, n % w;
    assert d * w + e == q * w + m;
    if d < q {
      MulAtLeast(q - d, w);
      assert false;
    } else if d > q {
      MulAtLeast(d - q, w);
      assert false;
    }
  }

  lemma SquareAt(o: Coord, r: nat, q: int, m: int)
    requires 0 <= q < Width(r) && 0 <= m < Width(r)
    ensures 0 <= q * Width(r) + m < Width(r) * Width(r)
    ensures Square(o, r)[q * Width(r) + m] == (o.0 - r + m, o.1 - r + q)
  {
    var w := Width(r);
    assert q * w <= (w - 1) * w;
    DivModOf(q, m, w);
  }

  lemma SquareSplit(r: nat, k: int)
    requires 0 <= k < Width(r) * Width(r)
    ensures 0 <= k / Width(r) < Width(r) && 0 <= k % Width(r) < Width(r)
    ensures k == k / Width(r) * Width(r) + k % Width(r)
  {
    DivSplit(k, Width(r));
  }

  lemma DivSplit(k: int, w: int)
    requires w > 0 && 0 <= k < w * w
    ensures 0 <= k / w < w && 0 <= k % w < w
    ensures k == k / w * w + k % w
  {
    var q, m := k / w, k % w;
    assert k == q * w + m;
    if q < 0 {
      MulMono(0, -q, w);
      assert false;
    }
    if q >= w {
      MulMono(q, w, w);
      assert false;
    }
  }

  /** The square holds exactly the coordinates within r of its centre, on or off the board. */
  lemma SquareHas(o: Coord, r: nat, c: Coord)
    ensures c in Square(o, r) <==> Within(o.0, c.0, r) && Within(o.1, c.1, r)
  {
    var w := Width(r);
    if c in Square(o, r) {
      var k :| 0 <= k < |Square(o, r)| && Square(o, r)[k] == c;
      SquareSplit(r, k);
    }
    if Within(o.0, c.0, r) && Within(o.1, c.1, r) {
      SquareAt(o, r, c.1 - o.1 + r, c.0 - o.0 + r);
    }
  }

  /** The centre sits at offset (r, r); the last column holds an entry r rows above and one r rows below it. */
  lemma SquareLandmarks(o: Coord, r: nat)
    ensures r * Width(r) + r < Width(r) * Width(r)
    ensures Square(o, r)[r * Width(r) + r] == o
    ensures r > 0 ==> r * Width(r) + r < 2 * r * Width(r)
    ensures 2 * r * Width(r) + 2 * r < Width(r) * Width(r)
    ensures Square(o, r)[2 * r * Width(r)] == (o.0 - r, o.1 + r)
    ensures Square(o, r)[2 * r * Width(r) + 2 * r] == (o.0 + r, o.1 + r)
  {
    var w := Width(r);
    SquareAt(o, r, r, r);
    SquareAt(o, r, 2 * r, 0);
    SquareAt(o, r, 2 * r, 2 * r);
    if r > 0 {
      MulAtLeast(r, w);
      assert 2 * r * w == r * w + r * w;
    }
  }

  /** The centre occurs once in the square. */
  lemma SquareCentreOnce(o: Coord, r: nat, k: int)
    requires 0 <= k < Width(r) * Width(r) && Square(o, r)[k] == o
    ensures k == r * Width(r) + r
  {
    SquareSplit(r, k);
  }

  /** The cell table inverts: [row, col] is stored under 8·row + col when on the board, and nowhere otherwise. */
  lemma CellTableInverse(z: int, c: Coord)
    ensures z in CellTable() && CellTable()[z] == c <==> OnBoard(c) && z == 8 * c.0 + c.1
  {
  }

  // ---------------------------------------------------------------------------

  class Board {
    /** graphCells: cell index -> [row, col]. */
    var graphCells: map<int, Coord>

    ghost predicate Valid()
      reads this
    {
      graphCells == CellTable()
    }

    constructor ()
      ensures Valid()
    {
      graphCells := map[];
      new;
      GenBoard();
    }

    /** Fills the cell table row by row with a running counter. */
    method GenBoard()
      modifies this
      ensures Valid()
    {
      var obj: map<int, Coord> := map[];
      var z := 0;
      for i := 0 to 8
        invariant z == 8 * i
        invariant obj == map k | 0 <= k < z :: CellOf(k)
      {
        for j := 0 to 8
          invariant z == 8 * i + j
          invariant obj == map k | 0 <= k < z :: CellOf(k)
        {
          assert CellOf(z) == (i, j);
          obj := obj[z := (i, j)];
          z := z + 1;
        }
      }
      graphCells := obj;
    }

    /**
     * The key whose cell is [row, col], scanning keys in ascending order and
     * keeping the last match; `undefined` (None) when no key matches.
     */
    method GetIdx(c: Coord) returns (currKey: Option<int>)
      requires Valid()
      ensures currKey.Some? ==> currKey.value in graphCells && graphCells[currKey.value] == c
      ensures currKey.None? ==> forall z :: z in graphCells ==> graphCells[z] != c
      ensures currKey == if OnBoard(c) then Some(8 * c.0 + c.1) else None
    {
      currKey := None;
      for key := 0 to 64
        invariant currKey.Some? ==> 0 <= currKey.value < key && graphCells[currKey.value] == c
        invariant currKey.None? ==> forall z :: 0 <= z < key ==> graphCells[z] != c
      {
        if graphCells[key].0 == c.0 && graphCells[key].1 == c.1 {
          currKey := Some(key);
        }
      }
      if currKey.Some? {
        CellTableInverse(currKey.value, c);
      } else if OnBoard(c) {
        CellTableInverse(8 * c.0 + c.1, c);
      }
    }

    /**
     * getRange: the indices within rangeValue of idx. The square is pushed, cleaned
     * by the backward splice scan, and mapped through getIdx keeping truthy indices
     * only, so off-board entries and index 0 are dropped.
     */
    method GetRange(idx: int, rangeValue: nat) returns (rangeIdxs: seq<int>)
      requires Valid() && IsCell(idx)
      ensures forall z :: z in rangeIdxs <==> InRange(idx, rangeValue, z)
    {
      var coords := (graphCells[idx].0, graphCells[idx].1);
      assert coords == CellOf(idx);
      var range := PushSquare(coords, rangeValue);
      SquareShape(coords, rangeValue);
      range := CleanUp(range, coords, rangeValue, rangeValue * Width(rangeValue) + rangeValue);
      rangeIdxs := KeepIndices(range);
      forall z | 0 <= z < 64
        ensures CellOf(z) in range <==> Near(idx, rangeValue, z) && !(OriginSpliced(idx, rangeValue) && z == idx)
      {
        assert OnBoard(CellOf(z));
        assert CellOf(z) == coords <==> z == idx;
        SquareHas(coords, rangeValue, CellOf(z));
      }
    }

    /** The getIdx pass of getRange: the truthy indices of the on-board entries, in order. */
    method KeepIndices(range: seq<Coord>) returns (rangeIdxs: seq<int>)
      requires Valid()
      ensures forall z :: z in rangeIdxs <==> 1 <= z < 64 && CellOf(z) in range
    {
      rangeIdxs := [];
      var t := 0;
      while t < |range|
        invariant 0 <= t <= |range|
        invariant forall z :: z in rangeIdxs <==> 1 <= z < 64 && CellOf(z) in range[..t]
      {
        var index := GetIdx(range[t]);
        if index.Some? && index.value != 0 {
          assert CellOf(index.value) == range[t];
          rangeIdxs := rangeIdxs + [index.value];
        }
        assert range[..t + 1] == range[..t] + [range[t]];
        t := t + 1;
      }
      assert range[..t] == range;
    }
  }

  /** The push loops of getRange: column offset outermost, row offset innermost, each from -r to r. */
  method PushSquare(coords: Coord, rangeValue: nat) returns (range: seq<Coord>)
    ensures range == Square(coords, rangeValue)
  {
    var r: int := rangeValue;
    var from := -r;
    var w := Width(r);
    ghost var sq := Square(coords, r);
    range := [];
    var y := from;
    while y <= r
      invariant from <= y <= r + 1
      invariant 0 <= (y + r) * w <= w * w
      invariant range == sq[..(y + r) * w]
    {
      var x := from;
      while x <= r
        invariant from <= x <= r + 1
        invariant (y + r) * w + (x + r) <= w * w
        invariant range == sq[..(y + r) * w + (x + r)]
      {
        SquareAt(coords, r, y + r, x + r);
        range := range + [(coords.0 + x, coords.1 + y)];
        x := x + 1;
      }
      assert (y + r) * w + w == (y + 1 + r) * w;
      y := y + 1;
    }
    assert (y + r) * w == w * w;
  }

  /**
   * What the clean-up scan needs to know about the pushed square: the centre
   * occurs once, at kc; an entry with an off-board row exists exactly when the
   * rows do not fit, and then one comes after the centre; and the list holds
   * the centre.
   */
  ghost predicate ShapeFacts(s: seq<Coord>, o: Coord, r: nat, kc: int) {
    && 0 <= kc < |s| && s[kc] == o
    && (forall j :: 0 <= j < |s| && s[j] == o ==> j == kc)
    && (forall j :: 0 <= j < |s| && !(0 <= s[j].0 <= 7) ==> !RowsFit(o.0, r))
    && (!RowsFit(o.0, r) && 0 <= o.0 <= 7 ==> exists j :: kc < j < |s| && !(0 <= s[j].0 <= 7))
  }

  lemma SquareShape(o: Coord, r: nat)
    ensures ShapeFacts(Square(o, r), o, r, r * Width(r) + r)
  {
    SquareLandmarks(o, r);
    SquareCentreUnique(o, r);
    SquareRowsOff(o, r);
    SquareRowWitness(o, r);
  }

  lemma SquareCentreUnique(o: Coord, r: nat)
    ensures forall j :: 0 <= j < |Square(o, r)| && Square(o, r)[j] == o ==> j == r * Width(r) + r
  {
    forall j | 0 <= j < |Square(o, r)| && Square(o, r)[j] == o
      ensures j == r * Width(r) + r
    {
      SquareCentreOnce(o, r, j);
    }
  }

  /** Only a square whose rows do not fit has an entry with an off-board row. */
  lemma SquareRowsOff(o: Coord, r: nat)
    ensures forall j :: 0 <= j < |Square(o, r)| && !(0 <= Square(o, r)[j].0 <= 7) ==> !RowsFit(o.0, r)
  {
    forall j | 0 <= j < |Square(o, r)| && !(0 <= Square(o, r)[j].0 <= 7)
      ensures !RowsFit(o.0, r)
    {
      SquareSplit(r, j);
    }
  }

  /** A square whose rows do not fit has an off-board row after its centre. */
  lemma SquareRowWitness(o: Coord, r: nat)
    ensures !RowsFit(o.0, r) && 0 <= o.0 <= 7 ==>
              exists j :: r * Width(r) + r < j < |Square(o, r)| && !(0 <= Square(o, r)[j].0 <= 7)
  {
    if !RowsFit(o.0, r) && 0 <= o.0 <= 7 {
      var w := Width(r);
      SquareLandmarks(o, r);
      var s := Square(o, r);
      assert r > 0;
      if o.0 - r < 0 {
        assert s[2 * r * w].0 == o.0 - r;
      } else {
        assert s[2 * r * w + 2 * r].0 == o.0 + r;
      }
    }
  }

  /**
   * The backward splice scan of getRange: from the last entry down, the origin
   * or an entry whose row is off the board is spliced and ends the scan; an
   * entry whose column is off the board is spliced and the scan goes on.
   */
  method CleanUp(pushed: seq<Coord>, coords: Coord, r: nat, ghost kc: int) returns (range: seq<Coord>)
    requires ShapeFacts(pushed, coords, r, kc) && OnBoard(coords)
    ensures forall c :: OnBoard(c) ==> (c in range <==> c in pushed && !(RowsFit(coords.0, r) && c == coords))
  {
    range := pushed;
    ghost var orig := pushed;
    var i := |range| - 1;
    while i >= 0
      invariant -1 <= i < |orig|
      invariant |range| >= i + 1 && range[..i + 1] == orig[..i + 1]
      invariant forall j :: i < j < |orig| ==> orig[j] != coords && 0 <= orig[j].0 <= 7
      invariant kc <= i
      invariant forall k :: i < k < |range| ==> range[k] in orig[i + 1..]
      invariant forall j :: i < j < |orig| && OnBoard(orig[j]) ==> orig[j] in range[i + 1..]
    {
      assert range[i] == orig[i];
      if range[i].0 == coords.0 && range[i].1 == coords.1 {
        SpliceKeeps(range, orig, i);
        range := range[..i] + range[i + 1..];
        SplicedResult(orig, coords, r, kc, i, range);
        return;
      }
      if range[i].0 < 0 || range[i].0 > 7 {
        SpliceKeeps(range, orig, i);
        range := range[..i] + range[i + 1..];
        SplicedResult(orig, coords, r, kc, i, range);
        return;
      }
      if range[i].1 < 0 || range[i].1 > 7 {
        SpliceKeeps(range, orig, i);
        range := range[..i] + range[i + 1..];
      }
      i := i - 1;
    }
    assert false;
  }

  /** What splice(i, 1) keeps of the scan's bookkeeping. */
  lemma SpliceKeeps(before: seq<Coord>, orig: seq<Coord>, i: int)
    requires 0 <= i < |orig| && |before| >= i + 1 && before[..i + 1] == orig[..i + 1]
    requires forall k :: i < k < |before| ==> before[k] in orig[i + 1..]
    requires forall j :: i < j < |orig| && OnBoard(orig[j]) ==> orig[j] in before[i + 1..]
    ensures var after := before[..i] + before[i + 1..];
      && |after| >= i && after[..i] == orig[..i]
      && (forall k :: i <= k < |after| ==> after[k] in orig[i + 1..])
      && (forall j :: 0 <= j < |orig| && j != i && OnBoard(orig[j]) ==> orig[j] in after)
  {
    var after := before[..i] + before[i + 1..];
    assert after[..i] == orig[..i];
    forall k | i <= k < |after|
      ensures after[k] in orig[i + 1..]
    {
      assert after[k] == before[k + 1];
    }
    forall j | 0 <= j < |orig| && j != i && OnBoard(orig[j])
      ensures orig[j] in after
    {
      if j < i {
        assert orig[j] == after[j];
      } else {
        var k :| i + 1 <= k < |before| && before[k] == orig[j];
        assert after[k - 1] == orig[j];
      }
    }
  }

  /**
   * Once the scan has spliced entry stop, which is the centre or has an
   * off-board row, the on-board entries left are those of the square other
   * than the spliced one.
   */
  lemma SplicedResult(orig: seq<Coord>, o: Coord, r: nat, kc: int, stop: int, range: seq<Coord>)
    requires ShapeFacts(orig, o, r, kc) && OnBoard(o) && kc <= stop < |orig|
    requires orig[stop] == o || !(0 <= orig[stop].0 <= 7)
    requires forall j :: stop < j < |orig| ==> orig[j] != o && 0 <= orig[j].0 <= 7
    requires |range| >= stop && range[..stop] == orig[..stop]
    requires forall k :: stop <= k < |range| ==> range[k] in orig[stop + 1..]
    requires forall j :: 0 <= j < |orig| && j != stop && OnBoard(orig[j]) ==> orig[j] in range
    ensures forall c :: OnBoard(c) ==> (c in range <==> c in orig && !(RowsFit(o.0, r) && c == o))
  {
    if orig[stop] == o {
      assert stop == kc;
      if !RowsFit(o.0, r) {
        assert false;
      }
    } else {
      assert !RowsFit(o.0, r);
    }
    forall c | OnBoard(c)
      ensures c in range <==> c in orig && !(RowsFit(o.0, r) && c == o)
    {
      if c in range {
        var k :| 0 <= k < |range| && range[k] == c;
        if k < stop {
          assert c == orig[k];
        } else {
          var j :| stop + 1 <= j < |orig| && orig[j] == c;
        }
        assert c in orig;
      }
      if c in orig && !(RowsFit(o.0, r) && c == o) {
        var j :| 0 <= j < |orig| && orig[j] == c;
      }
    }
  }

  /** With radius 0 the only candidate is the origin, and its rows always fit, so nothing is returned. */
  lemma RadiusZeroEmpty(idx: int, z: int)
    requires IsCell(idx)
    ensures !InRange(idx, 0, z)
  {
  }

  /** The origin is returned exactly when it is not cell 0 and its rows run off the board. */
  lemma OriginReturned(idx: int, r: nat)
    requires IsCell(idx)
    ensures InRange(idx, r, idx) <==> idx != 0 && (Row(idx) - r < 0 || Row(idx) + r > 7)
  {
  }

  /** Cell 0 is never returned, whatever the radius. */
  lemma ZeroNeverReturned(idx: int, r: nat)
    ensures !InRange(idx, r, 0)
  {
  }

  /** The corner: the origin is index 0 and so dropped although its rows do not fit. */
  lemma CornerRange(z: int)
    ensures InRange(0, 1, z) <==> z in {1, 8, 9}
  {
  }

  /** An inner cell has its eight neighbours and not itself. */
  lemma InnerRange(z: int)
    ensures InRange(27, 1, z) <==> z in {18, 19, 20, 26, 28, 34, 35, 36}
  {
  }

  /** Right edge: the rows fit, so the origin is spliced; the columns off the board are dropped. */
  lemma RightEdgeRange(z: int)
    ensures InRange(31, 1, z) <==> z in {22, 30, 38, 23, 39}
  {
  }

  /** Bottom-right corner: the scan stops at an off-board row, so the origin stays. */
  lemma LastCornerRange(z: int)
    ensures InRange(63, 1, z) <==> z in {54, 62, 55, 63}
  {
  }
}
