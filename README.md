# History manager of django-simple-history, in Dafny

This project models `simple_history/manager.py`. That file gives a model
class a `history` attribute. Reached through the class, it hands out a
manager over the whole history table. Reached through a live record, it
hands out a manager over that record's history only. The manager builds
the base query and the most recent snapshot (`most_recent`). It also
builds the state as of a date (`as_of`), either for one record or for
every record.

The history table is a sequence of `HistoryRow`s. Each row holds a
snapshot (lookup name to value), a `history_date` and a `history_type`
(`'+'`, `'~'`, `'-'`). The database is not part of the model: every query
takes the table's rows as a parameter. The history model's schema is
reduced to the set of lookup names the ORM accepts. Filtering or
projecting on any other name gives the ORM's `FieldError`.

Files:

- `history_store.dfy` (module `HistoryStore`): rows and values, and the
  query operations the manager composes: `filter(name=value)`,
  `filter(history_date__lte=date)`, `latest('history_date')` and the
  distinct values of a column. It also holds the lemmas that these keep
  the most-recent-first ordering and that the two filters commute.
- `manager.dfy` (module `Manager`): the model metadata, the error kinds,
  the classes `HistoryDescriptor` and `HistoryManager`, and the scoped and
  unscoped point-in-time selections.
- `manager_properties.dfy` (module `ManagerProperties`): the promises of
  `get_queryset`, `most_recent` and `as_of`, stated and proved as lemmas.

The instance-scoped paths take row `[0]` of a query. They rely on the
history model's default ordering, which is declared outside this file:
most recent first. The functions take row `[0]` as the code does.
`SortedByDateDesc(store)` is a hypothesis of the lemmas that say which row
that is.

## Model

| member | source | states |
|---|---|---|
| `Manager.HistoryDescriptor.constructor` | simple_history/manager.py:7-8 | the descriptor keeps the history model it was given |
| `Manager.HistoryDescriptor.Get` | simple_history/manager.py:10-13 | access through the class (no instance) gives a fresh manager with no instance; access through an instance gives one bound to that instance; both have the descriptor's model |
| `Manager.HistoryManager.constructor` | simple_history/manager.py:17-20 | the manager keeps its model and its (optional) instance |
| `Manager.HistoryManager.GetQueryset` | simple_history/manager.py:28-37 | unscoped: every row, unchanged; scoped: a field error if the key column is unknown, else exactly the rows whose key column equals the instance's pk |
| `Manager.KeyColumn` | simple_history/manager.py:33-36 | the filter key is `pk.name + "_id"` for a one-to-one primary key and `pk.name` for any other; it coincides with the name `most_recent` uses for the key field exactly when the key is not a plain foreign key |
| `ManagerProperties.ClassAndInstanceAccess` | simple_history/manager.py:10-13 | the base queries of the class-level and instance-level managers differ exactly by the identity filter on the key column |
| `Manager.AttNamesAt` | simple_history/manager.py:48-54 | the field-name list has one entry per model field, in order; a foreign key (one-to-one included) gets `name + "_id"`, every other field keeps its name |
| `Manager.ResolveNames` | simple_history/manager.py:56 | `values_list` accepts the names exactly when all are lookup names of the history model; otherwise it reports a field error on one of the unknown names |
| `Manager.HistoryManager.MostRecent` | simple_history/manager.py:41-60 | no instance: a usage error naming the history model and no result; ORM errors propagate; no rows: not-found "no historical record"; otherwise one value per field of the first row, read under that field's name |
| `Manager.HistoryManager.ValuesList` | simple_history/manager.py:56 | an error of the base query comes first, then an unknown name; otherwise one tuple per base-query row, in order, each of length `|names|`, holding that row's values under the given names |
| `ManagerProperties.MostRecentReadsLatestRow` | simple_history/manager.py:55-56 | under most-recent-first ordering, the row `most_recent` reads is a latest row of the instance (no row of the instance is dated later, and `latest` returns a row of the same date); with distinct dates per record it is the row `latest` returns |
| `HistoryStore.FilterEq` | simple_history/manager.py:37 | the identity filter keeps exactly the rows whose column equals the value, each as often as in its input, as a subsequence of its input (order kept) |
| `HistoryStore.FilterDateLte` | simple_history/manager.py:68 | the date cut-off keeps exactly the rows dated no later than the date, each as often as in its input, as a subsequence of its input (order kept) |
| `HistoryStore.FilterEqSorted` | simple_history/manager.py:37 | the identity filter keeps the most-recent-first ordering |
| `HistoryStore.FilterDateLteSorted` | simple_history/manager.py:68 | the date cut-off keeps the most-recent-first ordering |
| `HistoryStore.FilterCommute` | simple_history/manager.py:68 | filtering by identity then by date equals filtering by date then by identity |
| `HistoryStore.Latest` | simple_history/manager.py:84 | `latest('history_date')` returns a row of the set with no row dated later |
| `HistoryStore.LatestOfSorted` | simple_history/manager.py:71 | in most-recent-first order, row `[0]` is a latest row (`latest` returns a row of its date); when no other row shares its date, `latest` returns row `[0]` itself |
| `Manager.HistoryManager.AsOf` | simple_history/manager.py:62-86 | a successful answer is a single snapshot exactly when the manager has an instance |
| `Manager.PickAsOf` | simple_history/manager.py:69-80 | "had not yet been created" exactly when no row qualifies; "had already been deleted" exactly when row `[0]` has type `'-'`; otherwise the snapshot of row `[0]` |
| `ManagerProperties.ScopedQueryset` | simple_history/manager.py:68-71 | scoped `as_of` reads row `[0]` of exactly the instance's rows dated no later than the date, in store order |
| `ManagerProperties.ScopedAsOfNotYetCreated` | simple_history/manager.py:68-75 | scoped `as_of` fails with "had not yet been created" if and only if the instance has no row dated no later than the date |
| `ManagerProperties.ScopedAsOfReadsLatestRow` | simple_history/manager.py:68-80 | under the default ordering, success returns the snapshot of a latest qualifying row that is not a deletion; "had already been deleted" means a latest qualifying row is a deletion |
| `ManagerProperties.ScopedAsOfIsLatestRow` | simple_history/manager.py:68-80 | with distinct dates per record, the answer is fixed by the latest qualifying row: "had already been deleted" if it is a deletion, else its snapshot |
| `ManagerProperties.AsOfIgnoresLaterRows` | simple_history/manager.py:68 | two tables with the same rows dated no later than the date give the same `as_of` answer, scoped or unscoped |
| `HistoryStore.Identities` | simple_history/manager.py:81-82 | a value is among the distinct ids exactly when some row holds it in that column |
| `Manager.GroupLatest` | simple_history/manager.py:84 | the row `latest` picks for one identity belongs to that identity, and no row of it is dated later |
| `Manager.LatestPerIdentity` | simple_history/manager.py:81-86 | a field error when the grouping column is unknown; otherwise only identities that occur among the qualifying rows get a result |
| `ManagerProperties.PerIdentityAsOf` | simple_history/manager.py:81-86 | at most one result per identity, each the snapshot of a latest qualifying row that is not a deletion; an identity is absent only if it has no qualifying row or a latest qualifying row is a deletion |
| `ManagerProperties.UnscopedAsOf` | simple_history/manager.py:81-86 | as written, grouped by the literal `id`: a field error when the history model has no `id`; otherwise the per-identity rule above, on `id` |
| `Manager.AsOfAllByKey` | simple_history/manager.py:81-86 | grouped by the key column: succeeds exactly when the history model has that column; every identity in the result has a row dated no later than the date |
| `ManagerProperties.ByKeyAgreesWithScoped` | simple_history/manager.py:68-86 | under the default ordering and for a record whose history dates are distinct, grouped by the key column, the record appears in the unscoped answer exactly when its own scoped `as_of` succeeds, and with the same snapshot |
| `ManagerProperties.FirstIsGroupLatest` | simple_history/manager.py:68-84 | for a record with distinct history dates, row `[0]` of its qualifying rows in the default ordering is the row the per-identity `latest` picks |
| `ManagerProperties.AsWrittenIsByKeyWhenKeyIsId` | simple_history/manager.py:33-36 | when the key column is `id`, the unscoped `as_of` as written equals the key-grouped one |
| `ManagerProperties.LiteralIdMissesCustomKey` | simple_history/manager.py:81-84 | for a model keyed by `isbn`, unscoped `as_of` fails with a field error on `id`, while the record's scoped `as_of` and the key-grouped answer both return its snapshot |

## Left out

- `get_super_queryset` and its `AttributeError` fallback to `get_query_set` (lines 22-26) exist only for compatibility across Django versions. The base query starts from the table's rows directly.
- The alias `get_query_set = get_queryset` (line 39) is the same member.
- The ORM itself (`Manager`, `QuerySet`, `values_list`, `order_by`, `latest`) is reduced to functions on a row sequence. Resolving field names against attribute names is reduced to one set of accepted lookup names per history model. A row that lacks a name reads NULL there.
- The database and its I/O: the table's rows are a parameter of every query.
- The default ordering of the history model is declared elsewhere. The lemmas take it as a hypothesis, `SortedByDateDesc`.
- Laziness and single use of the generator that unscoped `as_of` returns, and the iteration order of `historical_ids`. The answer is a map from identity to snapshot; the generator yields the map's values.
- Tie-breaking among rows with equal `history_date` in `latest()` belongs to the database. `HistoryStore.Latest` takes the first such row in table order. No lemma relies on that choice: each states only "a latest row" (`LatestOfSorted`, `MostRecentReadsLatestRow`, `ScopedAsOfReadsLatestRow`, `PerIdentityAsOf`), or names the row `latest` returns only for a record whose history dates are distinct (the second ensures of `LatestOfSorted` and of `MostRecentReadsLatestRow`, `ScopedAsOfIsLatestRow`, `FirstIsGroupLatest`, `ByKeyAgreesWithScoped`).
- Manager.HistoryManager.ValuesList: `values_list()` with no names, which in Django returns every column, is not modelled; with no names the model returns one empty tuple per row. `most_recent` always names at least the primary key, and the schema here is a set of lookup names with no column order to return.
- Dates: `history_date` and the `as_of` argument are integer timestamps compared with `<=`. Datetime values, time zones and the ORM's errors for a malformed date are not modelled.
- Exception messages and the `_meta.object_name` lookup: an error carries its kind, the model's name and a reason tag.
- Python truthiness of `self.instance` (lines 45 and 69) versus `is None` (line 30): "no instance" is one case, `None`.
- Building the record, `self.instance.__class__(*values)` and `history_obj.instance`: `most_recent` returns the positional values, and `as_of` returns the stored snapshot.
- The unused `owner` argument of `__get__`, and the query methods the manager inherits from Django.
- `most_recent` reads row `[0]` even when it is a deletion, so it can return a deleted record's last state. This is the code's behaviour and the model keeps it.

## Findings

| source | as written | input that shows it | evidently intended | confidence | as-written member | corrected member |
|---|---|---|---|---|---|---|
| simple_history/manager.py:81-84 | unscoped `as_of` groups the rows by the literal lookup name `id`, while the scoped base query filters on the key column, `pk.name` or `pk.name + "_id"` (lines 33-36) | a model whose primary key is `isbn`: its history table has no `id`, so `Book.history.as_of(d)` fails with a field error, although `book.history.as_of(d)` returns the book's snapshot | group by the same key column as the scoped base query, so that the unscoped answer holds, per record whose history dates are distinct, what its scoped `as_of` returns | high; not executed | `ManagerProperties.LiteralIdMissesCustomKey` | `Manager.AsOfAllByKey` |

`Manager.HistoryManager.AsOf` keeps the code as written. `ManagerProperties.ByKeyAgreesWithScoped` proves the intended property of
`Manager.AsOfAllByKey`. `ManagerProperties.AsWrittenIsByKeyWhenKeyIsId` shows that the two agree whenever the key column is `id`.
