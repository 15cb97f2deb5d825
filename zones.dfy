/** The fixed cell lists the positional heuristics consult: the four corners,
    the "danger zone" ring one step inside the edge, and the border ring. The
    agents hard-code the two rings as literals and keep, next to each literal,
    a nested loop that would build it from an empty list (dead code in one
    agent, where it would append to the already-filled literal; a shadowed
    method in another); `Ring` is what that loop builds from an empty list. */
module Zones {
  import opened Board

  const TopLeft: Move := (0, 0)
  const TopRight: Move := (0, 7)
  const BottomLeft: Move := (7, 0)
  const BottomRight: Move := (7, 7)

  predicate IsCorner(m: Move) {
    m == TopLeft || m == TopRight || m == BottomLeft || m == BottomRight
  }

  /** The hard-coded danger-zone list (20 cells). */
  const DangerZone: seq<Move> :=
    [(1, 1), (1, 2), (1, 3), (1, 4), (1, 5), (1, 6), (2, 1), (2, 6), (3, 1), (3, 6),
     (4, 1), (4, 6), (5, 1), (5, 6), (6, 1), (6, 2), (6, 3), (6, 4), (6, 5), (6, 6)]

  /** The hard-coded border list (28 cells). */
  const BordersZone: seq<Move> :=
    [(0, 0), (0, 1), (0, 2), (0, 3), (0, 4), (0, 5), (0, 6), (0, 7), (1, 0), (1, 7),
     (2, 0), (2, 7), (3, 0), (3, 7), (4, 0), (4, 7), (5, 0), (5, 7), (6, 0), (6, 7),
     (7, 0), (7, 1), (7, 2), (7, 3), (7, 4), (7, 5), (7, 6), (7, 7)]

  /** A cell on the outline of the square [lo..hi] x [lo..hi]. */
  predicate OnRing(m: Move, lo: int, hi: int) {
    lo <= m.0 <= hi && lo <= m.1 <= hi &&
    (m.0 == lo || m.0 == hi || m.1 == lo || m.1 == hi)
  }

  /** The cells `(col, row)`, `lo <= row < rowEnd`, that the inner loop appends
      for one column: all of them on the first and last column, otherwise
      only the first and last row. */
  function RingColumn(lo: int, hi: int, col: int, rowEnd: int): seq<Move>
    decreases rowEnd - lo
  {
    if rowEnd <= lo then []
    else
      var row := rowEnd - 1;
      RingColumn(lo, hi, col, row) +
      (if col == lo || col == hi then [(col, row)]
       else if row == lo || row == hi then [(col, row)]
       else [])
  }

  /** The cells the outer loop has appended once columns `lo .. colEnd - 1`
      are done. */
  function RingColumns(lo: int, hi: int, colEnd: int): seq<Move>
    decreases colEnd - lo
  {
    if colEnd <= lo then []
    else RingColumns(lo, hi, colEnd - 1) + RingColumn(lo, hi, colEnd - 1, hi + 1)
  }

  /** What `for col in range(lo, hi + 1): for row in range(lo, hi + 1)` builds. */
  function Ring(lo: int, hi: int): seq<Move> {
    RingColumns(lo, hi, hi + 1)
  }

  lemma {:induction false} RingColumnMembers(lo: int, hi: int, col: int, rowEnd: int, m: Move)
    requires lo <= col <= hi && rowEnd <= hi + 1
    ensures m in RingColumn(lo, hi, col, rowEnd) <==> m.0 == col && m.1 < rowEnd && OnRing(m, lo, hi)
    decreases rowEnd - lo
  {
    if rowEnd > lo {
      RingColumnMembers(lo, hi, col, rowEnd - 1, m);
    }
  }

  lemma {:induction false} RingColumnsMembers(lo: int, hi: int, colEnd: int, m: Move)
    requires colEnd <= hi + 1
    ensures m in RingColumns(lo, hi, colEnd) <==> m.0 < colEnd && OnRing(m, lo, hi)
    decreases colEnd - lo
  {
    if colEnd > lo {
      RingColumnsMembers(lo, hi, colEnd - 1, m);
      RingColumnMembers(lo, hi, colEnd - 1, hi + 1, m);
    }
  }

  /** The loop builds exactly the outline of the square, as a set. */
  lemma RingMembers(lo: int, hi: int, m: Move)
    ensures m in Ring(lo, hi) <==> OnRing(m, lo, hi)
  {
    RingColumnsMembers(lo, hi, hi + 1, m);
  }

  /** A column strictly between the first and last one contributes its first
      and last cell only. */
  lemma {:induction false} MiddleColumn(lo: int, hi: int, col: int, rowEnd: int)
    requires lo < col < hi && lo < rowEnd <= hi + 1
    ensures RingColumn(lo, hi, col, rowEnd) == if rowEnd == hi + 1 then [(col, lo), (col, hi)] else [(col, lo)]
    decreases rowEnd - lo
  {
    if rowEnd - 1 > lo {
      MiddleColumn(lo, hi, col, rowEnd - 1);
    }
  }

  lemma DangerLeftHalf()
    ensures RingColumns(1, 6, 4) ==
      [(1, 1), (1, 2), (1, 3), (1, 4), (1, 5), (1, 6), (2, 1), (2, 6), (3, 1), (3, 6)]
  {
    assert RingColumn(1, 6, 1, 7) == [(1, 1), (1, 2), (1, 3), (1, 4), (1, 5), (1, 6)];
    MiddleColumn(1, 6, 2, 7);
    MiddleColumn(1, 6, 3, 7);
  }

  lemma DangerRightHalf()
    ensures RingColumns(1, 6, 6) == RingColumns(1, 6, 4) + [(4, 1), (4, 6), (5, 1), (5, 6)]
    ensures RingColumn(1, 6, 6, 7) == [(6, 1), (6, 2), (6, 3), (6, 4), (6, 5), (6, 6)]
  {
    MiddleColumn(1, 6, 4, 7);
    MiddleColumn(1, 6, 5, 7);
  }

  lemma DangerLiteralHalves()
    ensures DangerZone[..10] == [(1, 1), (1, 2), (1, 3), (1, 4), (1, 5), (1, 6), (2, 1), (2, 6), (3, 1), (3, 6)]
    ensures DangerZone[10..14] == [(4, 1), (4, 6), (5, 1), (5, 6)]
    ensures DangerZone[14..] == [(6, 1), (6, 2), (6, 3), (6, 4), (6, 5), (6, 6)]
  {
  }

  /** The hard-coded danger list is, element by element and in the same
      order, what the loop over columns and rows 1..6 builds from an empty
      list. */
  lemma DangerZoneIsRing()
    ensures DangerZone == Ring(1, 6)
  {
    DangerLeftHalf();
    DangerRightHalf();
    DangerLiteralHalves();
    SplitThree(DangerZone, 10, 14);
  }

  /** The first four columns of the border loop. */
  lemma BordersLeftHalf()
    ensures RingColumns(0, 7, 4) ==
      [(0, 0), (0, 1), (0, 2), (0, 3), (0, 4), (0, 5), (0, 6), (0, 7),
       (1, 0), (1, 7), (2, 0), (2, 7), (3, 0), (3, 7)]
  {
    var c0 := [(0, 0), (0, 1), (0, 2), (0, 3), (0, 4), (0, 5), (0, 6), (0, 7)];
    assert RingColumn(0, 7, 0, 8) == c0;
    MiddleColumn(0, 7, 1, 8);
    MiddleColumn(0, 7, 2, 8);
    MiddleColumn(0, 7, 3, 8);
  }

  lemma BordersLastColumn()
    ensures RingColumn(0, 7, 7, 8) == [(7, 0), (7, 1), (7, 2), (7, 3), (7, 4), (7, 5), (7, 6), (7, 7)]
  {
  }

  /** Columns 4 to 6 of the border loop. */
  lemma BordersMiddleColumns()
    ensures RingColumns(0, 7, 7) == RingColumns(0, 7, 4) + [(4, 0), (4, 7), (5, 0), (5, 7), (6, 0), (6, 7)]
  {
    MiddleColumn(0, 7, 4, 8);
    MiddleColumn(0, 7, 5, 8);
    MiddleColumn(0, 7, 6, 8);
  }

  lemma BordersLiteralThirds()
    ensures BordersZone[..14] ==
      [(0, 0), (0, 1), (0, 2), (0, 3), (0, 4), (0, 5), (0, 6), (0, 7),
       (1, 0), (1, 7), (2, 0), (2, 7), (3, 0), (3, 7)]
    ensures BordersZone[14..20] == [(4, 0), (4, 7), (5, 0), (5, 7), (6, 0), (6, 7)]
    ensures BordersZone[20..] == [(7, 0), (7, 1), (7, 2), (7, 3), (7, 4), (7, 5), (7, 6), (7, 7)]
  {
  }

  /** The hard-coded border list is, element by element and in the same
      order, what the loop over columns and rows 0..7 builds from an empty
      list. */
  lemma BordersZoneIsRing()
    ensures BordersZone == Ring(0, 7)
  {
    BordersLeftHalf();
    BordersMiddleColumns();
    BordersLastColumn();
    BordersLiteralThirds();
    SplitThree(BordersZone, 14, 20);
  }

  lemma SplitThree<T>(s: seq<T>, i: nat, j: nat)
    requires i <= j <= |s|
    ensures s == s[..i] + s[i..j] + s[j..]
  {
  }

  lemma ConcatAssociative<T>(a: seq<T>, b: seq<T>, c: seq<T>)
    ensures a + b + c == a + (b + c)
  {
  }

  /** Danger cells: 1 <= col, row <= 6 with col or row equal to 1 or 6. */
  lemma DangerZoneCells(m: Move)
    ensures |DangerZone| == 20
    ensures m in DangerZone <==> OnRing(m, 1, 6)
  {
    DangerZoneIsRing();
    RingMembers(1, 6, m);
  }

  /** Border cells: every board cell with col or row equal to 0 or 7. */
  lemma BordersZoneCells(m: Move)
    ensures |BordersZone| == 28
    ensures m in BordersZone <==> OnRing(m, 0, 7)
  {
    BordersZoneIsRing();
    RingMembers(0, 7, m);
  }

  /** Corners lie on the border and never in the danger zone; no cell is both
      a border and a danger cell. */
  lemma ZonesOverlap(m: Move)
    ensures IsCorner(m) ==> m in BordersZone && m !in DangerZone
    ensures !(m in BordersZone && m in DangerZone)
  {
    DangerZoneCells(m);
    BordersZoneCells(m);
  }
}
