/**
 * What the repository's copy loops compute, stated on values: the field map
 * of one entity built from one row, and the field maps of the entities built
 * from a whole rowset.
 */
module Hydration {
  import opened Values

  /**
   * The fields of a fresh instance seeded with `defaults` after every
   * `member => value` pair of `row` has been assigned to it, in row order.
   */
  function Hydrate(defaults: map<string, Value>, row: Pairs): (fields: map<string, Value>)
    ensures fields.Keys == defaults.Keys + Columns(row)
    ensures forall m :: m in defaults && m !in Columns(row) ==> fields[m] == defaults[m]
  {
    if row == [] then defaults
    else Hydrate(defaults, row[..|row| - 1])[row[|row| - 1].0 := row[|row| - 1].1]
  }

  /** The field maps of the entities built from `rows`, appended in row order. */
  function HydrateAll(defaults: map<string, Value>, rows: seq<Pairs>): (all: seq<map<string, Value>>)
    ensures |all| == |rows|
    ensures forall k :: 0 <= k < |rows| ==> all[k] == Hydrate(defaults, rows[k])
  {
    if rows == [] then []
    else HydrateAll(defaults, rows[..|rows| - 1]) + [Hydrate(defaults, rows[|rows| - 1])]
  }

  /** A row read as a dictionary from column name to value. */
  function AsMap(row: Row): (m: map<string, Value>)
    ensures m.Keys == Columns(row)
    ensures forall k :: 0 <= k < |row| ==> m[row[k].0] == row[k].1
  {
    map p | p in row :: p.0 := p.1
  }

  /**
   * Copying a row field by field onto a fresh instance gives the class
   * defaults overridden by the row: every column of the row lands on the
   * entity unchanged, and every other field keeps its default.
   */
  lemma {:induction false} HydrateIsOverride(defaults: map<string, Value>, row: Row)
    ensures Hydrate(defaults, row) == defaults + AsMap(row)
  {
    if row != [] {
      var init, last := row[..|row| - 1], row[|row| - 1];
      assert AsMap(row) == AsMap(init)[last.0 := last.1] by {
        assert row == init + [last];
        AsMapSnoc(init, last.0, last.1);
      }
      assert Hydrate(defaults, init) == defaults + AsMap(init) by {
        HydrateIsOverride(defaults, init);
      }
      assert (defaults + AsMap(init))[last.0 := last.1] == defaults + AsMap(init)[last.0 := last.1] by {
        MapOverrideUpdate(defaults, AsMap(init), last.0, last.1);
      }
    }
  }

  /** Updating an override is overriding with the updated map. */
  lemma MapOverrideUpdate(base: map<string, Value>, over: map<string, Value>, member: string, value: Value)
    ensures (base + over)[member := value] == base + over[member := value]
  {
  }

  /** Appending one pair to a row extends its dictionary reading by that pair. */
  lemma AsMapSnoc(init: Row, member: string, value: Value)
    requires DistinctColumns(init + [(member, value)])
    ensures AsMap(init + [(member, value)]) == AsMap(init)[member := value]
  {
    var row: Row := init + [(member, value)];
    var lhs, rhs := AsMap(row), AsMap(init)[member := value];
    assert lhs.Keys == rhs.Keys by {
      assert forall p :: p in row <==> p in init || p == (member, value);
    }
    forall c | c in lhs ensures lhs[c] == rhs[c] {
      if c == member {
        assert row[|init|] == (member, value);
      } else {
        var k := ColumnIndex(init, c);
        assert row[k] == init[k];
      }
    }
  }

  /** A position at which a column the row mentions occurs. */
  lemma ColumnIndex(row: Row, c: string) returns (k: nat)
    requires c in Columns(row)
    ensures k < |row| && row[k].0 == c
  {
    var p :| p in row && p.0 == c;
    k :| k < |row| && row[k] == p;
  }

  /**
   * `fields` is what copying `row` onto an instance holding `defaults` leaves:
   * the defaults' fields and the row's columns, every `member => value` pair
   * of the row unchanged, every other default untouched.
   */
  ghost predicate CopiedFrom(fields: map<string, Value>, defaults: map<string, Value>, row: Row)
  {
    && fields.Keys == defaults.Keys + Columns(row)
    && (forall k :: 0 <= k < |row| ==> fields[row[k].0] == row[k].1)
    && (forall m :: m in defaults && m !in Columns(row) ==> fields[m] == defaults[m])
  }

  /** Every `member => value` pair of the row is found unchanged on the entity. */
  lemma RowValuesCopied(defaults: map<string, Value>, row: Row)
    ensures CopiedFrom(Hydrate(defaults, row), defaults, row)
  {
    HydrateIsOverride(defaults, row);
  }

  /**
   * When the storage honours the identifier criteria, so that the row it
   * returns holds `identifier` in `identifierColumn`, the entity built from
   * it carries that identifier.
   */
  lemma FoundEntityHasIdentifier(defaults: map<string, Value>, row: Row, identifierColumn: string, identifier: Value)
    requires (identifierColumn, identifier) in row
    ensures identifierColumn in Hydrate(defaults, row)
    ensures Hydrate(defaults, row)[identifierColumn] == identifier
  {
    RowValuesCopied(defaults, row);
  }
}
