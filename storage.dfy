/**
 * The storage backend the repository works against. Its behaviour is not
 * part of this model: each operation may answer anything of the right shape.
 * What the model does keep is a ghost log of every request it received
 * together with the answer it gave, so that the repository's contracts can
 * say exactly what it asked for and what it did with the answer.
 */
module Storage {
  import opened Values

  /** One request to the storage and the answer it gave. */
  datatype Call =
    | FetchAllCall(table: string, rowset: seq<Row>)
    | FetchAllByCall(criteria: Criteria, table: string, rowset: seq<Row>)
    | FindCall(criteria: Criteria, table: string, found: Option<Row>)
    | SaveCall(data: Row, table: string, id: Value)

  class Storage {
    /** Every request received so far, oldest first. */
    ghost var calls: seq<Call>

    constructor ()
      ensures calls == []
    {
      calls := [];
    }

    /** All rows of `table`, in the order the backend chooses. */
    method FetchAll(table: string) returns (rowset: seq<Row>)
      modifies this
      ensures calls == old(calls) + [FetchAllCall(table, rowset)]
    {
      rowset := *;
      calls := calls + [FetchAllCall(table, rowset)];
    }

    /** The rows of `table` that the backend matches against `criteria`. */
    method FetchAllBy(criteria: Criteria, table: string) returns (rowset: seq<Row>)
      modifies this
      ensures calls == old(calls) + [FetchAllByCall(criteria, table, rowset)]
    {
      rowset := *;
      calls := calls + [FetchAllByCall(criteria, table, rowset)];
    }

    /** At most one row of `table` that the backend matches against `criteria`. */
    method Find(criteria: Criteria, table: string) returns (found: Option<Row>)
      modifies this
      ensures calls == old(calls) + [FindCall(criteria, table, found)]
    {
      found := *;
      calls := calls + [FindCall(criteria, table, found)];
    }

    /** Persists `data` in `table` and answers the identifier it generated. */
    method Save(data: Row, table: string) returns (id: Value)
      modifies this
      ensures calls == old(calls) + [SaveCall(data, table, id)]
    {
      id := *;
      calls := calls + [SaveCall(data, table, id)];
    }
  }
}
