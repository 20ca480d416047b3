/** Cells of a table read with `dtype=str`, and the numeric coercion the
    dashboard applies to them (`pd.to_numeric(..., errors="coerce")`, `fillna(0)`
    and, where the code asks for it, `astype(int)`). */
module Cells {
  import opened Wrappers

  /** One table cell: missing (NaN), text as read from CSV, or a number. */
  datatype Cell = Missing | Text(s: string) | Int(i: int) | Real(r: real)

  /** How `pd.to_numeric` reads a text cell: the number it denotes, or `None`
      when the text is not a number. The model takes it as a parameter. */
  type Parser = string -> Option<real>

  /** `pd.to_numeric(cell, errors="coerce")`: the numeric reading of a cell,
      `None` for NaN and for unparsable text. */
  function ToNumber(parse: Parser, c: Cell): Option<real>
  {
    match c
    case Missing => None
    case Text(s) => parse(s)
    case Int(i) => Some(i as real)
    case Real(r) => Some(r)
  }

  /** `astype(int)` on a float: truncation toward zero. */
  function Trunc(x: real): (n: int)
    ensures x >= 0.0 ==> 0 <= n && n as real <= x < n as real + 1.0
    ensures x < 0.0 ==> n <= 0 && n as real - 1.0 < x <= n as real
  {
    if x >= 0.0 then x.Floor else -((-x).Floor)
  }

  /** `pd.to_numeric(errors="coerce").fillna(0).astype(int)` on one cell:
      unparsable or missing becomes 0, a number is truncated toward zero. */
  function CoerceInt(parse: Parser, c: Cell): (n: int)
    ensures ToNumber(parse, c).None? ==> n == 0
    ensures ToNumber(parse, c).Some? && ToNumber(parse, c).value >= 0.0 ==>
              0 <= n && n as real <= ToNumber(parse, c).value < n as real + 1.0
    ensures ToNumber(parse, c).Some? && ToNumber(parse, c).value < 0.0 ==>
              n <= 0 && n as real - 1.0 < ToNumber(parse, c).value <= n as real
  {
    Trunc(ToNumber(parse, c).GetOr(0.0))
  }

  /** `pd.to_numeric(errors="coerce").fillna(0)` on one cell, without the
      integer cast: a numeric cell keeps its value, a missing one becomes 0,
      text becomes the number it spells or 0; `astype(int)` applied to the
      result is the integer coercion of the cell. */
  function CoerceReal(parse: Parser, c: Cell): (x: real)
    ensures c.Real? ==> x == c.r
    ensures c.Int? ==> x == c.i as real
    ensures c.Missing? ==> x == 0.0
    ensures c.Text? && parse(c.s).None? ==> x == 0.0
    ensures c.Text? && parse(c.s).Some? ==> x == parse(c.s).value
    ensures Trunc(x) == CoerceInt(parse, c)
  {
    ToNumber(parse, c).GetOr(0.0)
  }
}
