/**
 * Cell values of a result table and the ascending order the table sort
 * uses on them: nulls first, numbers (timestamps) numerically, strings
 * lexicographically by character code.
 */
module Cells {
  import opened Wrappers

  /** A non-null cell value: a timestamp or measurement, or a text value. */
  datatype Value = Num(n: int) | Text(s: string)

  /** A table cell; `None` is a null (an empty cell of a diagonal concat). */
  type Cell = Option<Value>

  /** Lexicographic order on strings. */
  predicate StrLe(a: string, b: string)
    decreases |a|
  {
    if a == [] then true
    else if b == [] then false
    else if a[0] != b[0] then a[0] < b[0]
    else StrLe(a[1..], b[1..])
  }

  lemma {:induction false} StrLeReflexive(a: string)
    ensures StrLe(a, a)
    decreases |a|
  {
    if a != [] {
      StrLeReflexive(a[1..]);
    }
  }

  lemma {:induction false} StrLeTotal(a: string, b: string)
    ensures StrLe(a, b) || StrLe(b, a)
    decreases |a|
  {
    if a != [] && b != [] && a[0] == b[0] {
      StrLeTotal(a[1..], b[1..]);
    }
  }

  lemma {:induction false} StrLeAntisymmetric(a: string, b: string)
    requires StrLe(a, b) && StrLe(b, a)
    ensures a == b
    decreases |a|
  {
    if a != [] && b != [] {
      StrLeAntisymmetric(a[1..], b[1..]);
      assert a == [a[0]] + a[1..];
      assert b == [b[0]] + b[1..];
    }
  }

  lemma {:induction false} StrLeTransitive(a: string, b: string, c: string)
    requires StrLe(a, b) && StrLe(b, c)
    ensures StrLe(a, c)
    decreases |a|
  {
    if a != [] && b != [] && c != [] && a[0] == b[0] && b[0] == c[0] {
      StrLeTransitive(a[1..], b[1..], c[1..]);
    }
  }

  /** Ascending order on cells: nulls first, numbers before text. */
  predicate CellLe(x: Cell, y: Cell) {
    match (x, y)
    case (None, _) => true
    case (Some(_), None) => false
    case (Some(Num(a)), Some(Num(b))) => a <= b
    case (Some(Num(_)), Some(Text(_))) => true
    case (Some(Text(_)), Some(Num(_))) => false
    case (Some(Text(a)), Some(Text(b))) => StrLe(a, b)
  }

  lemma CellLeReflexive(x: Cell)
    ensures CellLe(x, x)
  {
    if x.Some? && x.value.Text? {
      StrLeReflexive(x.value.s);
    }
  }

  lemma CellLeTotal(x: Cell, y: Cell)
    ensures CellLe(x, y) || CellLe(y, x)
  {
    if x.Some? && y.Some? && x.value.Text? && y.value.Text? {
      StrLeTotal(x.value.s, y.value.s);
    }
  }

  lemma CellLeAntisymmetric(x: Cell, y: Cell)
    requires CellLe(x, y) && CellLe(y, x)
    ensures x == y
  {
    if x.Some? && y.Some? && x.value.Text? && y.value.Text? {
      StrLeAntisymmetric(x.value.s, y.value.s);
    }
  }

  lemma CellLeTransitive(x: Cell, y: Cell, z: Cell)
    requires CellLe(x, y) && CellLe(y, z)
    ensures CellLe(x, z)
  {
    if x.Some? && y.Some? && z.Some? && x.value.Text? && y.value.Text? && z.value.Text? {
      StrLeTransitive(x.value.s, y.value.s, z.value.s);
    }
  }

  /**
   * Ascending order on (primary, secondary) sort keys: by the primary
   * cell, and by the secondary cell among equal primaries.
   */
  predicate KeyLe(a: (Cell, Cell), b: (Cell, Cell)) {
    (CellLe(a.0, b.0) && a.0 != b.0) || (a.0 == b.0 && CellLe(a.1, b.1))
  }

  lemma KeyLeTotal(a: (Cell, Cell), b: (Cell, Cell))
    ensures KeyLe(a, b) || KeyLe(b, a)
  {
    CellLeTotal(a.0, b.0);
    CellLeTotal(a.1, b.1);
  }

  lemma KeyLeTransitive(a: (Cell, Cell), b: (Cell, Cell), c: (Cell, Cell))
    requires KeyLe(a, b) && KeyLe(b, c)
    ensures KeyLe(a, c)
  {
    if a.0 == b.0 && b.0 == c.0 {
      CellLeTransitive(a.1, b.1, c.1);
    } else {
      CellLeReflexive(a.0);
      CellLeReflexive(b.0);
      CellLeTransitive(a.0, b.0, c.0);
      if a.0 == c.0 {
        CellLeAntisymmetric(a.0, b.0);
      }
    }
  }
}
