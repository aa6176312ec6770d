/**
 * Values that travel between the storage backend, the repository and the
 * entities: scalar column values, and the PHP arrays that hold them.
 */
module Values {

  /** A scalar column value as the storage backend hands it over (or null). */
  datatype Value =
    | Null
    | Bool(b: bool)
    | Int(i: int)
    | Float(f: real)
    | Str(s: string)

  datatype Option<+T> = None | Some(value: T)

  /** Pairs of column name and value, in the order PHP's `foreach` walks them. */
  type Pairs = seq<(string, Value)>

  /** The column names a list of pairs mentions. */
  function Columns(row: Pairs): set<string>
  {
    set p | p in row :: p.0
  }

  /** No column name occurs twice. */
  predicate DistinctColumns(row: Pairs)
  {
    forall i, j :: 0 <= i < j < |row| ==> row[i].0 != row[j].0
  }

  /**
   * A PHP array keyed by column name: a result row, a criteria array or the
   * data handed to `save`. A PHP array never holds the same key twice.
   */
  type Row = r: Pairs | DistinctColumns(r)

  type Criteria = Row

  /** PHP's `empty($row)` for what the storage's `find` returns: no row, or an empty array. */
  predicate IsEmptyRow(found: Option<Row>)
  {
    found.None? || found.value == []
  }
}
