/**
  What the history manager promises: how class and instance access differ,
  what `most_recent` reads, and the point-in-time rule of `as_of` in both
  its scoped and its unscoped form.
 */
module ManagerProperties {
  import opened HistoryStore
  import opened Manager

  /** `row` is a latest row of identity `value` among those dated no later than `date`. */
  ghost predicate IsLatestAsOf(store: seq<HistoryRow>, name: string, value: Value, date: int, row: HistoryRow) {
    && row in store && Column(row, name) == value && row.historyDate <= date
    && forall x :: x in store && Column(x, name) == value && x.historyDate <= date ==> x.historyDate <= row.historyDate
  }

  /** No two history rows of identity `value` share a date. */
  ghost predicate DistinctDates(store: seq<HistoryRow>, name: string, value: Value) {
    forall x, y ::
      (x in store && y in store && Column(x, name) == value && Column(y, name) == value && x.historyDate == y.historyDate)
      ==> x == y
  }

  /** Identity `value` has no history row dated no later than `date`. */
  ghost predicate NoneAsOf(store: seq<HistoryRow>, name: string, value: Value, date: int) {
    forall row :: row in store && Column(row, name) == value ==> row.historyDate > date
  }

  /**
    Reached through the class and through an instance, the two managers'
    base queries differ exactly by the identity filter.
   */
  lemma ClassAndInstanceAccess(unscoped: HistoryManager, scoped: HistoryManager, store: seq<HistoryRow>)
    requires unscoped.model == scoped.model && unscoped.instance.None? && scoped.instance.Some?
    requires KeyColumn(scoped.instance.value.meta.pk) in scoped.model.columns
    ensures unscoped.GetQueryset(store) == Success(store)
    ensures scoped.GetQueryset(store)
         == Success(FilterEq(unscoped.GetQueryset(store).value,
                             KeyColumn(scoped.instance.value.meta.pk), scoped.instance.value.pk))
  {
  }

  /**
    In the default ordering, the first row `most_recent` reads is a latest row
    of the instance, and with distinct dates it is the row `latest` returns.
   */
  lemma MostRecentReadsLatestRow(m: HistoryManager, store: seq<HistoryRow>)
    requires SortedByDateDesc(store)
    requires m.instance.Some? && m.GetQueryset(store).Success? && m.GetQueryset(store).value != []
    ensures Latest(m.GetQueryset(store).value).historyDate == m.GetQueryset(store).value[0].historyDate
    ensures DistinctDates(store, KeyColumn(m.instance.value.meta.pk), m.instance.value.pk)
            ==> Latest(m.GetQueryset(store).value) == m.GetQueryset(store).value[0]
    ensures forall row :: row in store && Column(row, KeyColumn(m.instance.value.meta.pk)) == m.instance.value.pk
              ==> row.historyDate <= m.GetQueryset(store).value[0].historyDate
  {
    var rows := m.GetQueryset(store).value;
    FilterEqSorted(store, KeyColumn(m.instance.value.meta.pk), m.instance.value.pk);
    LatestOfSorted(rows);
  }

  /** The queryset scoped `as_of` reads: the instance's rows dated no later than `date`. */
  lemma ScopedQueryset(m: HistoryManager, store: seq<HistoryRow>, date: int)
    requires m.instance.Some? && KeyColumn(m.instance.value.meta.pk) in m.model.columns
    ensures var q := FilterDateLte(FilterEq(store, KeyColumn(m.instance.value.meta.pk), m.instance.value.pk), date);
            && (forall row :: row in q <==> row in store && Column(row, KeyColumn(m.instance.value.meta.pk)) == m.instance.value.pk
                                             && row.historyDate <= date)
            && (SortedByDateDesc(store) ==> SortedByDateDesc(q))
            && m.AsOf(store, date) == (match PickAsOf(q, m.instance.value.meta.objectName)
                                       case Success(s) => Success(Single(s))
                                       case Failure(e) => Failure(e))
  {
    var key, pk := KeyColumn(m.instance.value.meta.pk), m.instance.value.pk;
    if SortedByDateDesc(store) {
      FilterEqSorted(store, key, pk);
      FilterDateLteSorted(FilterEq(store, key, pk), date);
    }
  }

  /** Scoped `as_of` reports "not yet created" exactly when no row of the instance is dated by then. */
  lemma ScopedAsOfNotYetCreated(m: HistoryManager, store: seq<HistoryRow>, date: int)
    requires m.instance.Some? && KeyColumn(m.instance.value.meta.pk) in m.model.columns
    ensures m.AsOf(store, date) == Failure(DoesNotExist(m.instance.value.meta.objectName, NotYetCreated))
            <==> NoneAsOf(store, KeyColumn(m.instance.value.meta.pk), m.instance.value.pk, date)
  {
    var key, pk := KeyColumn(m.instance.value.meta.pk), m.instance.value.pk;
    var q := FilterDateLte(FilterEq(store, key, pk), date);
    ScopedQueryset(m, store, date);
    if !NoneAsOf(store, key, pk, date) {
      var row :| row in store && Column(row, key) == pk && row.historyDate <= date;
      assert row in q;
    }
  }

  /**
    In the default ordering, scoped `as_of` answers from a latest row of the
    instance dated no later than `date`: its snapshot, or "already deleted"
    when that row is a deletion.
   */
  lemma ScopedAsOfReadsLatestRow(m: HistoryManager, store: seq<HistoryRow>, date: int)
    requires SortedByDateDesc(store)
    requires m.instance.Some? && KeyColumn(m.instance.value.meta.pk) in m.model.columns
    ensures m.AsOf(store, date).Success? ==>
              exists row :: IsLatestAsOf(store, KeyColumn(m.instance.value.meta.pk), m.instance.value.pk, date, row)
                            && row.historyType != Deleted && m.AsOf(store, date) == Success(Single(row.snapshot))
    ensures m.AsOf(store, date) == Failure(DoesNotExist(m.instance.value.meta.objectName, AlreadyDeleted)) ==>
              exists row :: IsLatestAsOf(store, KeyColumn(m.instance.value.meta.pk), m.instance.value.pk, date, row)
                            && row.historyType == Deleted
  {
    var key, pk := KeyColumn(m.instance.value.meta.pk), m.instance.value.pk;
    var q := FilterDateLte(FilterEq(store, key, pk), date);
    ScopedQueryset(m, store, date);
    if q != [] {
      LatestOfSorted(q);
      assert IsLatestAsOf(store, key, pk, date, q[0]);
    }
  }

  /**
    With distinct dates per record, the outcome of scoped `as_of` is fixed by
    THE latest row dated no later than `date`.
   */
  lemma ScopedAsOfIsLatestRow(m: HistoryManager, store: seq<HistoryRow>, date: int, row: HistoryRow)
    requires SortedByDateDesc(store)
    requires m.instance.Some? && KeyColumn(m.instance.value.meta.pk) in m.model.columns
    requires DistinctDates(store, KeyColumn(m.instance.value.meta.pk), m.instance.value.pk)
    requires IsLatestAsOf(store, KeyColumn(m.instance.value.meta.pk), m.instance.value.pk, date, row)
    ensures m.AsOf(store, date)
         == if row.historyType == Deleted then Failure(DoesNotExist(m.instance.value.meta.objectName, AlreadyDeleted))
            else Success(Single(row.snapshot))
  {
    var key, pk := KeyColumn(m.instance.value.meta.pk), m.instance.value.pk;
    var q := FilterDateLte(FilterEq(store, key, pk), date);
    ScopedQueryset(m, store, date);
    assert row in q;
    assert q[0] in q;
    assert q[0] == row;
  }

  /** Rows dated after `date` never change what `as_of(date)` answers, scoped or not. */
  lemma AsOfIgnoresLaterRows(m: HistoryManager, store: seq<HistoryRow>, other: seq<HistoryRow>, date: int)
    requires FilterDateLte(store, date) == FilterDateLte(other, date)
    ensures m.AsOf(store, date) == m.AsOf(other, date)
  {
    if m.instance.Some? && KeyColumn(m.instance.value.meta.pk) in m.model.columns {
      var key, pk := KeyColumn(m.instance.value.meta.pk), m.instance.value.pk;
      FilterCommute(store, key, pk, date);
      FilterCommute(other, key, pk, date);
    }
  }

  /**
    The per-identity selection after the date cut-off: one entry per
    identity, each the snapshot of a latest qualifying row that is not a
    deletion; an identity is missing only if it has no qualifying row or a
    latest qualifying row is a deletion.
   */
  lemma PerIdentityAsOf(model: HistoryModel, store: seq<HistoryRow>, date: int, name: string)
    requires name in model.columns
    ensures LatestPerIdentity(model, FilterDateLte(store, date), name).Success?
    ensures var latest := LatestPerIdentity(model, FilterDateLte(store, date), name).value;
            forall v :: v in latest ==>
              exists row :: IsLatestAsOf(store, name, v, date, row) && row.historyType != Deleted && latest[v] == row.snapshot
    ensures var latest := LatestPerIdentity(model, FilterDateLte(store, date), name).value;
            forall v :: v !in latest ==>
              NoneAsOf(store, name, v, date) || exists row :: IsLatestAsOf(store, name, v, date, row) && row.historyType == Deleted
  {
    var q := FilterDateLte(store, date);
    var latest := LatestPerIdentity(model, q, name).value;
    forall v | v in latest
      ensures exists row :: IsLatestAsOf(store, name, v, date, row) && row.historyType != Deleted && latest[v] == row.snapshot
    {
      assert IsLatestAsOf(store, name, v, date, GroupLatest(q, name, v));
    }
    forall v | v !in latest
      ensures NoneAsOf(store, name, v, date) || exists row :: IsLatestAsOf(store, name, v, date, row) && row.historyType == Deleted
    {
      if !NoneAsOf(store, name, v, date) {
        var row :| row in store && Column(row, name) == v && row.historyDate <= date;
        assert row in q;
        assert v in Identities(q, name);
        assert IsLatestAsOf(store, name, v, date, GroupLatest(q, name, v));
      }
    }
  }

  /**
    Unscoped `as_of` as written: keyed by the `id` column, it fails with a
    field error when the history model has no `id`, and otherwise yields at
    most one snapshot per `id` value, each from a latest qualifying row that
    is not a deletion.
   */
  lemma UnscopedAsOf(m: HistoryManager, store: seq<HistoryRow>, date: int)
    requires m.instance.None?
    ensures "id" !in m.model.columns ==> m.AsOf(store, date) == Failure(FieldError("id"))
    ensures "id" in m.model.columns ==>
              && m.AsOf(store, date).Success? && m.AsOf(store, date).value.PerIdentity?
              && var latest := m.AsOf(store, date).value.latest;
                 && (forall v :: v in latest ==>
                       exists row :: IsLatestAsOf(store, "id", v, date, row) && row.historyType != Deleted && latest[v] == row.snapshot)
                 && (forall v :: v !in latest ==>
                       NoneAsOf(store, "id", v, date) || exists row :: IsLatestAsOf(store, "id", v, date, row) && row.historyType == Deleted)
  {
    if "id" in m.model.columns {
      PerIdentityAsOf(m.model, store, date, "id");
    }
  }

  /**
    Grouped by the key column, unscoped `as_of` agrees with scoped `as_of`
    for every record whose history dates are distinct: the record is present
    exactly when its scoped `as_of` succeeds, and with the same snapshot.
   */
  lemma ByKeyAgreesWithScoped(m: HistoryManager, store: seq<HistoryRow>, date: int)
    requires SortedByDateDesc(store)
    requires m.instance.Some? && KeyColumn(m.instance.value.meta.pk) in m.model.columns
    requires DistinctDates(store, KeyColumn(m.instance.value.meta.pk), m.instance.value.pk)
    ensures AsOfAllByKey(m.model, store, date, m.instance.value.meta.pk).Success?
    ensures var all := AsOfAllByKey(m.model, store, date, m.instance.value.meta.pk).value;
            && (m.instance.value.pk in all <==> m.AsOf(store, date).Success?)
            && (m.instance.value.pk in all ==> m.AsOf(store, date) == Success(Single(all[m.instance.value.pk])))
  {
    var key, pk := KeyColumn(m.instance.value.meta.pk), m.instance.value.pk;
    var cut := FilterDateLte(store, date);
    var q := FilterDateLte(FilterEq(store, key, pk), date);
    ScopedQueryset(m, store, date);
    FilterCommute(store, key, pk, date);
    assert q == FilterEq(cut, key, pk);
    if q != [] {
      FirstIsGroupLatest(store, key, pk, date);
    }
  }

  /** With distinct dates, the first qualifying row of a record is the one grouping by its key picks. */
  lemma FirstIsGroupLatest(store: seq<HistoryRow>, key: string, pk: Value, date: int)
    requires SortedByDateDesc(store) && DistinctDates(store, key, pk)
    requires FilterEq(FilterDateLte(store, date), key, pk) != []
    ensures pk in Identities(FilterDateLte(store, date), key)
    ensures GroupLatest(FilterDateLte(store, date), key, pk) == FilterEq(FilterDateLte(store, date), key, pk)[0]
  {
    var cut := FilterDateLte(store, date);
    var q := FilterEq(cut, key, pk);
    FilterDateLteSorted(store, date);
    FilterEqSorted(cut, key, pk);
    var first := q[0];
    assert first in q;
    assert first in cut && Column(first, key) == pk;
    var g := GroupLatest(cut, key, pk);
    assert g in q;
    assert g.historyDate == first.historyDate;
    assert g in store && first in store;
  }

  /** Where the key column is `id`, the as-written unscoped `as_of` is the key-grouped one. */
  lemma AsWrittenIsByKeyWhenKeyIsId(m: HistoryManager, store: seq<HistoryRow>, date: int, pk: Field)
    requires m.instance.None? && KeyColumn(pk) == "id"
    ensures m.AsOf(store, date) == match AsOfAllByKey(m.model, store, date, pk)
                                   case Success(latest) => Success(PerIdentity(latest))
                                   case Failure(e) => Failure(e)
  {
  }

  /** A model keyed by `isbn`: its history table has no `id` column. */
  function BookPk(): Field { Field("isbn", Plain) }
  function Book(): Instance {
    Instance(ModelMeta("Book", [BookPk(), Field("title", Plain)], BookPk()), Text("0-13"))
  }
  function BookHistory(): HistoryModel { HistoryModel("HistoricalBook", {"isbn", "title"}) }
  function BookSnapshot(): Snapshot { map["isbn" := Text("0-13"), "title" := Text("Dafny")] }
  function BookRows(): seq<HistoryRow> { [HistoryRow(BookSnapshot(), 10, Created)] }

  /**
    The literal `id` of unscoped `as_of`: on a model keyed by `isbn`, the
    class-level `as_of` fails with a field error, while the record's own
    `as_of` and the key-grouped selection both find its snapshot.
   */
  lemma LiteralIdMissesCustomKey(unscoped: HistoryManager, scoped: HistoryManager)
    requires unscoped.model == BookHistory() && unscoped.instance.None?
    requires scoped.model == BookHistory() && scoped.instance == Some(Book())
    ensures unscoped.AsOf(BookRows(), 20) == Failure(FieldError("id"))
    ensures scoped.AsOf(BookRows(), 20) == Success(Single(BookSnapshot()))
    ensures AsOfAllByKey(BookHistory(), BookRows(), 20, BookPk()) == Success(map[Text("0-13") := BookSnapshot()])
  {
    var cut := FilterDateLte(BookRows(), 20);
    assert cut == BookRows();
    assert FilterEq(BookRows(), "isbn", Text("0-13")) == BookRows();
    assert Identities(cut, "isbn") == {Text("0-13")};
    assert GroupLatest(cut, "isbn", Text("0-13")) == BookRows()[0];
    var latest := LatestPerIdentity(BookHistory(), cut, "isbn").value;
    assert latest.Keys == {Text("0-13")};
    assert latest == map[Text("0-13") := BookSnapshot()];
  }
}
