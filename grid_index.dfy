/**
 * Column-major layout shared by both tessellations. A grid of `m` columns of
 * `n` cells is visited column by column (outer loop over columns, inner over
 * rows), and every cell contributes a piece of `L` entries, so the entry `t`
 * of cell (x, y) lands at index `(x * n + y) * L + t`. The lemmas here take
 * such an index apart again.
 */
module GridIndex {

  /** The pieces of cells (x, 0) .. (x, n - 1), in order. */
  function Column<V>(x: int, n: int, piece: (int, int) -> seq<V>): seq<V>
    decreases n
  {
    if n <= 0 then [] else Column(x, n - 1, piece) + piece(x, n - 1)
  }

  /** The columns 0 .. m - 1 of `n` cells each, in order. */
  function Columns<V>(m: int, n: int, piece: (int, int) -> seq<V>): seq<V>
    decreases m
  {
    if m <= 0 then [] else Columns(m - 1, n, piece) + Column(m - 1, n, piece)
  }

  /** A column grows by one piece per row. */
  lemma ColumnGrows<V>(x: int, y: int, piece: (int, int) -> seq<V>)
    requires y >= 0
    ensures Column(x, y + 1, piece) == Column(x, y, piece) + piece(x, y)
  {
  }

  /** The columns grow by one column at a time. */
  lemma ColumnsGrow<V>(x: int, n: int, piece: (int, int) -> seq<V>)
    requires x >= 0
    ensures Columns(x + 1, n, piece) == Columns(x, n, piece) + Column(x, n, piece)
  {
  }

  /** Entry t of the piece of cell (x, y) sits in column x right after the pieces of rows 0..y-1. */
  lemma {:induction false} ColumnEntry<V>(x: int, n: int, piece: (int, int) -> seq<V>, y: int, t: int)
    requires 0 <= y < n && 0 <= t < |piece(x, y)|
    ensures |Column(x, y, piece)| + t < |Column(x, n, piece)|
    ensures Column(x, n, piece)[|Column(x, y, piece)| + t] == piece(x, y)[t]
    decreases n
  {
    if y < n - 1 {
      ColumnEntry(x, n - 1, piece, y, t);
    }
  }

  /** Entry t of the piece of cell (x, y) sits right after columns 0..x-1 and the pieces of
      rows 0..y-1 of column x. */
  lemma {:induction false} ColumnsEntry<V>(m: int, n: int, piece: (int, int) -> seq<V>, x: int, y: int, t: int)
    requires 0 <= x < m && 0 <= y < n && 0 <= t < |piece(x, y)|
    ensures |Columns(x, n, piece)| + |Column(x, y, piece)| + t < |Columns(m, n, piece)|
    ensures Columns(m, n, piece)[|Columns(x, n, piece)| + |Column(x, y, piece)| + t] == piece(x, y)[t]
    decreases m
  {
    assert Columns(m, n, piece) == Columns(m - 1, n, piece) + Column(m - 1, n, piece);
    if x < m - 1 {
      ColumnsEntry(m - 1, n, piece, x, y, t);
    } else {
      ColumnEntry(x, n, piece, y, t);
    }
  }

  /** Conversely, every entry of column x is entry t of the piece of some cell (x, y). */
  lemma {:induction false} ColumnEntrySlot<V>(x: int, n: int, piece: (int, int) -> seq<V>, k: int)
    returns (y: int, t: int)
    requires 0 <= k < |Column(x, n, piece)|
    ensures 0 <= y < n && 0 <= t < |piece(x, y)|
    ensures k == |Column(x, y, piece)| + t
    ensures Column(x, n, piece)[k] == piece(x, y)[t]
    decreases n
  {
    var before := Column(x, n - 1, piece);
    if k < |before| {
      y, t := ColumnEntrySlot(x, n - 1, piece, k);
    } else {
      y, t := n - 1, k - |before|;
    }
  }

  /** Conversely, every entry of the columns is entry t of the piece of some cell (x, y). */
  lemma {:induction false} ColumnsEntrySlot<V>(m: int, n: int, piece: (int, int) -> seq<V>, k: int)
    returns (x: int, y: int, t: int)
    requires 0 <= k < |Columns(m, n, piece)|
    ensures 0 <= x < m && 0 <= y < n && 0 <= t < |piece(x, y)|
    ensures k == |Columns(x, n, piece)| + |Column(x, y, piece)| + t
    ensures Columns(m, n, piece)[k] == piece(x, y)[t]
    decreases m
  {
    var before := Columns(m - 1, n, piece);
    if k < |before| {
      x, y, t := ColumnsEntrySlot(m - 1, n, piece, k);
    } else {
      x := m - 1;
      y, t := ColumnEntrySlot(x, n, piece, k - |before|);
    }
  }

  /** The entries before cell (x, y), plus its own non-empty piece, fit inside the columns. */
  lemma {:induction false} PieceFits<V>(m: int, n: int, piece: (int, int) -> seq<V>, x: int, y: int)
    requires 0 <= x < m && 0 <= y < n && |piece(x, y)| >= 1
    ensures |Columns(x, n, piece) + Column(x, y, piece)| + |piece(x, y)| <= |Columns(m, n, piece)|
  {
    ColumnsEntry(m, n, piece, x, y, |piece(x, y)| - 1);
  }

  /** Every piece has `L` entries. */
  ghost predicate Uniform<V>(piece: (int, int) -> seq<V>, L: nat) {
    forall x, y :: |piece(x, y)| == L
  }

  /** A column of `n` pieces of `L` entries holds `n * L` entries. */
  lemma {:induction false} ColumnLength<V>(x: int, n: int, piece: (int, int) -> seq<V>, L: nat)
    requires Uniform(piece, L)
    ensures |Column(x, n, piece)| == if n <= 0 then 0 else n * L
    decreases n
  {
    if n > 0 {
      ColumnLength(x, n - 1, piece, L);
      assert |piece(x, n - 1)| == L;
      MulStep(n - 1, L);
    }
  }

  /** `m` columns of `n` pieces of `L` entries hold `m * (n * L)` entries. */
  lemma {:induction false} ColumnsLength<V>(m: int, n: int, piece: (int, int) -> seq<V>, L: nat)
    requires Uniform(piece, L)
    ensures |Columns(m, n, piece)| == if m <= 0 || n <= 0 then 0 else m * (n * L)
    decreases m
  {
    if m > 0 {
      ColumnsLength(m - 1, n, piece, L);
      ColumnLength(m - 1, n, piece, L);
      MulStep(m - 1, n * L);
    }
  }

  /** With pieces of `L` entries, entry t of cell (x, y) is at index `(x * n + y) * L + t`. */
  lemma {:induction false} ColumnsAt<V>(m: int, n: int, piece: (int, int) -> seq<V>, L: nat, x: int, y: int, t: int)
    requires Uniform(piece, L)
    requires 0 <= x < m && 0 <= y < n && 0 <= t < L
    ensures (x * n + y) * L + t < |Columns(m, n, piece)|
    ensures Columns(m, n, piece)[(x * n + y) * L + t] == piece(x, y)[t]
  {
    assert |piece(x, y)| == L;
    ColumnsEntry(m, n, piece, x, y, t);
    ColumnsLength(x, n, piece, L);
    ColumnLength(x, y, piece, L);
    LayoutOffset(x, n, L, y, t);
    assert (x * n + y) * L + t == |Columns(x, n, piece)| + |Column(x, y, piece)| + t;
  }

  /** Conversely, with pieces of `L` entries, index k holds entry t of cell (x, y)
      where `k == (x * n + y) * L + t`. */
  lemma {:induction false} ColumnsSlot<V>(m: int, n: int, piece: (int, int) -> seq<V>, L: nat, k: int)
    returns (x: int, y: int, t: int)
    requires Uniform(piece, L)
    requires 0 <= k < |Columns(m, n, piece)|
    ensures 0 <= x < m && 0 <= y < n && 0 <= t < L
    ensures k == (x * n + y) * L + t
    ensures Columns(m, n, piece)[k] == piece(x, y)[t]
  {
    x, y, t := ColumnsEntrySlot(m, n, piece, k);
    assert |piece(x, y)| == L;
    ColumnsLength(x, n, piece, L);
    ColumnLength(x, y, piece, L);
    LayoutOffset(x, n, L, y, t);
  }

  /** One more row of `b`. */
  lemma MulStep(a: int, b: int)
    ensures (a + 1) * b == a * b + b
  {
  }

  /** Index `(x * n + y) * L + t` is column x's offset `x * (n * L)` plus `y * L + t`. */
  lemma LayoutOffset(x: int, n: int, L: int, y: int, t: int)
    ensures (x * n + y) * L + t == x * (n * L) + (y * L + t)
  {
  }

  /** The index of a position inside an `m` x `s` grid is below `m * s`. */
  lemma {:induction false} IndexBelow(x: int, y: int, m: int, s: int)
    requires 0 <= x < m && 0 <= y < s
    ensures 0 <= x * s + y < m * s
  {
    assert m * s == x * s + s + (m - x - 1) * s;
    assert (m - x - 1) * s >= 0;
  }
}
