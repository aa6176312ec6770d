# PhpORM repository hydration, modelled in Dafny

PhpORM's `RepositoryAbstract` is a data mapper. It does two things:

- It asks a storage backend for result rows from a named table.
- It turns each row into a fresh entity: it instantiates the prototype's class and assigns every `member => value` pair of the row to that instance.

`fetchAll` and `fetchAllBy` do this for a whole rowset. `find` and `findBy` do it for the single row the storage's `find` returns, and return `null` when that row is empty. `save` hands its data straight to the storage.

The project has four modules:

- `Values` (values.dfy) holds the data. Column values are a `Value` datatype. A PHP array is a `Row`: an ordered list of `(column, value)` pairs, in the order `foreach` walks them. Like every PHP array, it never holds the same column twice; the type itself carries that constraint. Rows from storage, criteria and the data given to `save` are all `Row`s. PHP's `empty($row)` is `IsEmptyRow`: no row at all, or an empty array.
- `Hydration` (hydration.dfy) gives the value-level meaning of the copy loops. `Hydrate` folds a row onto the class defaults in row order.
  `CopiedFrom` states what that fold must leave: every pair of the row copied unchanged, and every other default untouched. `HydrateAll` maps a rowset to field maps in order. `AsMap` is an independent reference definition that reads a row as a dictionary. `HydrateIsOverride` proves that hydrating equals "class defaults overridden by the row's dictionary".
- `Storage` (storage.dfy) is the backend. It promises nothing about its answers: each operation may return any value of the right shape. It keeps a ghost log, `calls`, of every request together with the answer it gave. The repository's contracts use that log to say exactly what was asked and what came back.
  Only `Storage`'s own methods write the log. The repository's contracts about requests and answers rest on that: a method with `modifies storage` could in principle append to `calls` itself, and the model relies on nothing but `Storage`'s methods doing so.
- `Repository` (repository.dfy) holds the classes. `Entity` is an object whose `fields` map is updated in place, one `Assign` per pair. `RepositoryAbstract` is the repository, and its methods carry the loops.

The source writes the inner copy loop four times and the outer loop twice. The model writes each loop once, in `BuildEntity` and `BuildEntities`. `FetchAll`, `FetchAllBy`, `Find` and `FindBy` call them exactly where the source has its copies.

An entity does not start empty. `new $class` gives it its class's declared property defaults, and the row is assigned on top of them. So an entity's fields are the class defaults plus the row's columns, and where both name a field the row's value wins. The model follows the code on this point, not the simpler reading that an entity's fields are exactly the row's keys.

## Model

| member | source | states |
|---|---|---|
| Repository.RepositoryAbstract.constructor | src/PhpORM/Repository/RepositoryAbstract.php:31-35 | The repository keeps the given storage and prototype. The table and identifier column are constructor parameters here; in the source, subclasses declare them. |
| Repository.Entity.constructor | src/PhpORM/Repository/RepositoryAbstract.php:45-49 | `new $class` for the prototype's class: a fresh instance of that class whose fields are the class defaults. |
| Repository.Entity.Assign | src/PhpORM/Repository/RepositoryAbstract.php:51 | `$entity->$member = $value` sets that one field to the value and leaves every other field alone. It creates the field if the class lacks it. |
| Repository.RepositoryAbstract.BuildEntity | src/PhpORM/Repository/RepositoryAbstract.php:49-52 | The inner `foreach` returns a fresh instance of the prototype's class whose fields are `Hydrate(defaults, row)`. The loop invariant is "the prefix of the row is copied". |
| Repository.RepositoryAbstract.BuildEntities | src/PhpORM/Repository/RepositoryAbstract.php:47-56 | The outer `foreach` returns one fresh entity per row. The entities are pairwise distinct objects of the prototype's class. There are exactly as many entities as rows. Entity k's fields are `Hydrate(defaults, rowset[k])`, so every pair of row k is copied unchanged onto it. |
| Repository.EntitiesMatchRowset | src/PhpORM/Repository/RepositoryAbstract.php:47-56 | Entities whose field maps are the hydrated rowset are one per row. Entity k is built from row k, and every pair of that row is found on it unchanged. |
| Repository.RepositoryAbstract.BuildFound | src/PhpORM/Repository/RepositoryAbstract.php:93-102 | Returns null exactly when the row is empty (absent or an empty array). Otherwise it returns one fresh entity hydrated from that row: every pair of the row is copied unchanged, and every other field keeps its default. |
| Repository.RepositoryAbstract.FetchAll | src/PhpORM/Repository/RepositoryAbstract.php:42-57 | Makes exactly one storage request, `fetchAll(table)`. Returns exactly one fresh entity per returned row: entity k is built from row k, with every pair of that row copied unchanged. An empty rowset gives an empty sequence. |
| Repository.RepositoryAbstract.FetchAllBy | src/PhpORM/Repository/RepositoryAbstract.php:66-81 | Forwards `criteria` and `table` to storage unchanged in one request. Applies the same mapping as `FetchAll`: the same length, entity k from row k, and row values copied unchanged. |
| Repository.RepositoryAbstract.Find | src/PhpORM/Repository/RepositoryAbstract.php:89-103 | Queries storage once, with exactly the one-entry criteria `[identifierColumn => identifier]` and the table. Returns null iff the returned row is empty. Otherwise it returns the entity hydrated from that row, with the row's values copied unchanged. |
| Repository.RepositoryAbstract.FindBy | src/PhpORM/Repository/RepositoryAbstract.php:112-126 | Forwards `criteria` and `table` to storage's `find` unchanged in one request. Returns null iff the row is empty. Otherwise it returns the entity hydrated from that row, with the row's values copied unchanged. |
| Repository.RepositoryAbstract.Save | src/PhpORM/Repository/RepositoryAbstract.php:136-139 | Makes exactly one storage request, `save(data, table)`, with `data` unmodified. Returns exactly the identifier the storage answered. |
| Hydration.Hydrate | src/PhpORM/Repository/RepositoryAbstract.php:49-52 | After the copy, the entity's fields are the class defaults' fields plus the row's columns. Any field the row does not name keeps its default. |
| Hydration.HydrateAll | src/PhpORM/Repository/RepositoryAbstract.php:47-56 | Exactly one field map per row (equal lengths). The one at position k is built from row k. |
| Hydration.AsMap | src/PhpORM/Repository/RepositoryAbstract.php:50 | Reads a PHP array as a dictionary: its keys are the row's columns, and each column maps to the value the row pairs with it. |
| Hydration.HydrateIsOverride | src/PhpORM/Repository/RepositoryAbstract.php:49-52 | Copying a row pair by pair onto a fresh instance gives the class defaults overridden by the row's dictionary. This is proved by induction on the row. |
| Hydration.RowValuesCopied | src/PhpORM/Repository/RepositoryAbstract.php:50-52 | Hydrating a row satisfies `CopiedFrom`: the entity's fields are the defaults' fields plus the row's columns. For every `member => value` pair of the row, field `member` equals `value` unchanged. Every other default is untouched. |
| Hydration.FoundEntityHasIdentifier | src/PhpORM/Repository/RepositoryAbstract.php:91-99 | Suppose the row `find` gets back holds `identifier` in the identifier column. Then the entity built from it carries that identifier in that field. |

## Left out

- The storage backend is not part of this model. Its `fetchAll`, `fetchAllBy`, `find` and `save` may answer anything of the right shape. Its matching of criteria (equality, ANDing) and its generation of identifiers are not modelled. Errors it raises are not modelled either; the repository does not handle them.
- `find` on the storage is modelled as returning at most one row (`Option<Row>`). What a backend does when several rows match is its own business.
- PHP's `get_class` / `new $class` is modelled as a `Prototype` value. It gives the class name and the class's declared property defaults. A constructor with side effects, magic `__set`, typed, readonly or private properties, and other parts of PHP's object system are not modelled. Assignment always succeeds and may create a new property.
- Property names that PHP refuses are not modelled: the empty string, and names starting with a NUL byte, make `$entity->$member` throw. Every assignment succeeds in the model.
- Integer keys of a PHP array are not modelled separately. A column name is a string, which is what such a key becomes when it is used as a property name.
- PHP's `empty()` on arbitrary values (`false`, `0`, `"0"`, `""`) is not modelled. A row from `find` is empty when it is absent or an empty array.
- Floating-point column values are carried as `real` and are never computed with.
- `RepositoryInterface` is not part of this model.
