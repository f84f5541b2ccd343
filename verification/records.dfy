/** The dictionaries the collection code passes around, modelled as maps from
    a fixed set of keys to Python values.  A value is `None`, a bool, a number
    (with the text `str()` gives for it), a string, or a nested dictionary. */
module Records {
  import opened Wrappers
  import opened Text

  /** A Python value as the modelled code sees it.  `Num` carries the text
      that `str()` renders for the number, since the code sometimes
      re-parses that text. */
  datatype Cell =
    | Null
    | Flag(b: bool)
    | Num(x: real, shown: string)
    | Str(s: string)
    | Dict(fields: map<string, Cell>, shown: string)

  /** Python truthiness. */
  predicate Truthy(c: Cell) {
    match c
    case Null => false
    case Flag(b) => b
    case Num(x, _) => x != 0.0
    case Str(s) => |s| > 0
    case Dict(f, _) => |f| > 0
  }

  /** `str(c)` */
  function Show(c: Cell): string {
    match c
    case Null => "None"
    case Flag(b) => if b then "True" else "False"
    case Num(_, shown) => shown
    case Str(s) => s
    case Dict(_, shown) => shown
  }

  /** The values `sqlite3` binds to a statement parameter: anything but a
      dictionary. */
  predicate Bindable(c: Cell) {
    !c.Dict?
  }

  /** `float(c)`: `None` models the `ValueError`/`TypeError` it raises.
      Parsing a string is the partial function `parse`. */
  function ToFloat(c: Cell, parse: string -> Option<real>): Option<real> {
    match c
    case Null => None
    case Flag(b) => Some(if b then 1.0 else 0.0)
    case Num(x, _) => Some(x)
    case Str(s) => parse(s)
    case Dict(_, _) => None
  }

  /** What the model relies on about Python's `float()` on strings: a run of
      ASCII digits parses to its decimal value, and a string holding the
      numeral character 百 (not a decimal digit) does not parse. */
  ghost predicate FloatSemantics(parse: string -> Option<real>) {
    && (forall s {:trigger parse(s)} :: |s| > 0 && AllDigits(s) ==> parse(s) == Some(DecimalValue(s) as real))
    && (forall s {:trigger parse(s)} :: '百' in s ==> parse(s) == None)
  }

  /** The two report years the collection covers. */
  datatype Year = Y2023 | Y2024

  /** The dictionary keys the modelled code reads or writes, and `Other`
      for any key it does not look at. */
  datatype Key =
    | Code | Name | Financial(year: Year) | Industry | Market | ListDate | DataSource | Source | Valid
    | StockCode | StockName | RealEstate(year: Year) | Other(name: string)

  /** A JSON object or a dictionary with free-form string keys. */
  type Json = map<string, Cell>

  /** A record: a dictionary keyed by the keys above. */
  type Record = map<Key, Cell>

  /** `record.get(key)` */
  function Get(r: Record, k: Key): Cell {
    if k in r then r[k] else Null
  }
}
