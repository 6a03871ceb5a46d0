/**
  The history descriptor and the history manager: the manager is bound to
  the history model and, when reached through an instance, to that
  instance; it builds the base query, the most recent snapshot and the
  point-in-time (`as_of`) view over the history table.
 */
module Manager {
  import opened HistoryStore

  datatype Option<+T> = None | Some(value: T)

  /** Why a history lookup found nothing. */
  datatype Reason = NoHistoricalRecord | NotYetCreated | AlreadyDeleted

  datatype Error =
    /** Usage error: an instance-only operation on a manager without an instance. */
    | TypeError(modelName: string)
    /** Not-found error of the original model, with its reason. */
    | DoesNotExist(modelName: string, reason: Reason)
    /** Raised by the ORM for a lookup name the history model does not have. */
    | FieldError(name: string)

  datatype Result<+T> = Success(value: T) | Failure(error: Error) {
    predicate IsFailure() { Failure? }
    function PropagateFailure<U>(): Result<U> requires Failure? { Failure(error) }
    function Extract(): T requires Success? { value }
  }

  /** The kind of a model field; a one-to-one field is a foreign key too. */
  datatype FieldKind = Plain | ForeignKey | OneToOne {
    predicate IsForeignKey() { ForeignKey? || OneToOne? }
  }

  datatype Field = Field(name: string, kind: FieldKind)

  /** `_meta` of an original model: display name, fields in order, primary key. */
  datatype ModelMeta = ModelMeta(objectName: string, fields: seq<Field>, pk: Field)

  /** A live record of an original model, known by its primary-key value. */
  datatype Instance = Instance(meta: ModelMeta, pk: Value)

  /** The history model: display name and the lookup names its rows can be queried by. */
  datatype HistoryModel = HistoryModel(objectName: string, columns: set<string>)

  /** What `as_of` hands back: one snapshot, or one snapshot per original record. */
  datatype AsOfResult = Single(snapshot: Snapshot) | PerIdentity(latest: map<Value, Snapshot>)

  /** The name `most_recent` asks for a field by: its raw identifier for a foreign key. */
  function AttName(f: Field): string {
    if f.kind.IsForeignKey() then f.name + "_id" else f.name
  }

  /** The names of all fields, in field order. */
  function AttNames(fields: seq<Field>): seq<string> {
    if fields == [] then [] else AttNames(fields[..|fields| - 1]) + [AttName(fields[|fields| - 1])]
  }

  /** The history column that holds an original record's key: `_id` added only for a one-to-one key. */
  function KeyColumn(pk: Field): (k: string)
    ensures pk.kind.OneToOne? ==> k == pk.name + "_id"
    ensures !pk.kind.OneToOne? ==> k == pk.name
    ensures k == AttName(pk) <==> !pk.kind.ForeignKey?
  {
    if pk.kind.OneToOne? then pk.name + "_id" else pk.name
  }

  /** The ORM's `filter(name=value)` on the history model. */
  function Filter(model: HistoryModel, rows: seq<HistoryRow>, name: string, value: Value): Result<seq<HistoryRow>> {
    if name in model.columns then Success(FilterEq(rows, name, value)) else Failure(FieldError(name))
  }

  /** The ORM's name check of `values_list(*names)`: the first unknown name is reported. */
  function ResolveNames(model: HistoryModel, names: seq<string>): (r: Result<()>)
    ensures r.Success? <==> forall j :: 0 <= j < |names| ==> names[j] in model.columns
    ensures r.Failure? ==> r.error.FieldError? && r.error.name in names && r.error.name !in model.columns
  {
    if names == [] then Success(())
    else if names[0] !in model.columns then Failure(FieldError(names[0]))
    else ResolveNames(model, names[1..])
  }

  /** The row `latest('history_date')` picks among the rows of one identity. */
  function GroupLatest(rows: seq<HistoryRow>, name: string, value: Value): (r: HistoryRow)
    requires value in Identities(rows, name)
    ensures r in rows && Column(r, name) == value
    ensures forall row :: row in rows && Column(row, name) == value ==> row.historyDate <= r.historyDate
  {
    var group := FilterEq(rows, name, value);
    assert group != [] by {
      var row :| row in rows && Column(row, name) == value;
      assert row in group;
    }
    Latest(group)
  }

  /**
    The unscoped point-in-time selection over an already date-filtered
    queryset: the distinct values of `idColumn`, each mapped to the snapshot
    of its latest row, leaving out those whose latest row is a deletion.
   */
  function LatestPerIdentity(model: HistoryModel, queryset: seq<HistoryRow>, idColumn: string): (r: Result<map<Value, Snapshot>>)
    ensures r.Failure? <==> idColumn !in model.columns
    ensures r.Failure? ==> r.error == FieldError(idColumn)
    ensures r.Success? ==> r.value.Keys <= Identities(queryset, idColumn)
  {
    if idColumn !in model.columns then Failure(FieldError(idColumn))
    else
      Success(map v | v in Identities(queryset, idColumn) && GroupLatest(queryset, idColumn, v).historyType.Symbol() != '-'
                :: GroupLatest(queryset, idColumn, v).snapshot)
  }

  /** The instance-scoped point-in-time selection over an already filtered queryset. */
  function PickAsOf(queryset: seq<HistoryRow>, objectName: string): (r: Result<Snapshot>)
    ensures r == Failure(DoesNotExist(objectName, NotYetCreated)) <==> queryset == []
    ensures r == Failure(DoesNotExist(objectName, AlreadyDeleted)) <==> queryset != [] && queryset[0].historyType == Deleted
    ensures r.Success? <==> queryset != [] && queryset[0].historyType != Deleted
    ensures r.Success? ==> r.value == queryset[0].snapshot
  {
    if queryset == [] then Failure(DoesNotExist(objectName, NotYetCreated))
    else if queryset[0].historyType.Symbol() == '-' then Failure(DoesNotExist(objectName, AlreadyDeleted))
    else Success(queryset[0].snapshot)
  }

  /**
    Unscoped `as_of` grouped by the original model's key column, the column
    the instance-scoped base query filters on.
   */
  function AsOfAllByKey(model: HistoryModel, store: seq<HistoryRow>, date: int, pk: Field): (r: Result<map<Value, Snapshot>>)
    ensures r.Success? <==> KeyColumn(pk) in model.columns
    ensures r.Success? ==> forall v :: v in r.value ==> exists row :: row in store && Column(row, KeyColumn(pk)) == v && row.historyDate <= date
  {
    LatestPerIdentity(model, FilterDateLte(store, date), KeyColumn(pk))
  }

  /** Installed on a model class; hands out history managers. */
  class HistoryDescriptor {
    const model: HistoryModel

    constructor (model: HistoryModel)
      ensures this.model == model
    {
      this.model := model;
    }

    /**
      Attribute access: through the class (`instance` is None) an unscoped
      manager, through an instance a manager bound to it; the model is the
      descriptor's either way.
     */
    method Get(instance: Option<Instance>) returns (m: HistoryManager)
      ensures fresh(m)
      ensures m.model == model && m.instance == instance
    {
      if instance.None? {
        m := new HistoryManager(model, None);
      } else {
        m := new HistoryManager(model, instance);
      }
    }
  }

  /** Queries over the history table, optionally scoped to one original record. */
  class HistoryManager {
    const model: HistoryModel
    const instance: Option<Instance>

    constructor (model: HistoryModel, instance: Option<Instance>)
      ensures this.model == model && this.instance == instance
    {
      this.model := model;
      this.instance := instance;
    }

    /**
      The base query: every history row when unscoped; otherwise exactly the
      rows whose key column holds the instance's primary key.
     */
    function GetQueryset(store: seq<HistoryRow>): (r: Result<seq<HistoryRow>>)
      ensures instance.None? ==> r == Success(store)
      ensures instance.Some? ==> (r.Success? <==> KeyColumn(instance.value.meta.pk) in model.columns)
      ensures instance.Some? && r.Failure? ==> r.error == FieldError(KeyColumn(instance.value.meta.pk))
      ensures instance.Some? && r.Success? ==>
                forall row :: row in r.value <==>
                  row in store && Column(row, KeyColumn(instance.value.meta.pk)) == instance.value.pk
    {
      if instance.None? then Success(store)
      else Filter(model, store, KeyColumn(instance.value.meta.pk), instance.value.pk)
    }

    /** `values_list(*names)` on the base query. */
    function ValuesList(store: seq<HistoryRow>, names: seq<string>): (r: Result<seq<seq<Value>>>)
      ensures GetQueryset(store).Failure? ==> r == Failure(GetQueryset(store).error)
      ensures GetQueryset(store).Success? && ResolveNames(model, names).Failure? ==> r == Failure(ResolveNames(model, names).error)
      ensures r.Success? <==> GetQueryset(store).Success? && ResolveNames(model, names).Success?
      ensures r.Success? ==>
                && |r.value| == |GetQueryset(store).value|
                && (forall k :: 0 <= k < |r.value| ==> |r.value[k]| == |names|)
                && forall k, j :: 0 <= k < |r.value| && 0 <= j < |names| ==>
                     r.value[k][j] == Column(GetQueryset(store).value[k], names[j])
    {
      var rows :- GetQueryset(store);
      var _ :- ResolveNames(model, names);
      Success(seq(|rows|, k requires 0 <= k < |rows| => Project(rows[k], names)))
    }

    /**
      The most recent snapshot of the instance: its field values, foreign keys
      as raw identifiers, taken from the first row of the base query.
     */
    method MostRecent(store: seq<HistoryRow>) returns (r: Result<seq<Value>>)
      ensures instance.None? ==> r == Failure(TypeError(model.objectName))
      ensures instance.Some? ==>
                match GetQueryset(store)
                case Failure(e) => r == Failure(e)
                case Success(rows) =>
                  var names := AttNames(instance.value.meta.fields);
                  if ResolveNames(model, names).Failure? then r == Failure(ResolveNames(model, names).error)
                  else if rows == [] then r == Failure(DoesNotExist(instance.value.meta.objectName, NoHistoricalRecord))
                  else r == Success(Project(rows[0], names))
      ensures r.Success? ==>
                && instance.Some?
                && GetQueryset(store).Success? && GetQueryset(store).value != []
                && |r.value| == |instance.value.meta.fields|
                && forall j :: 0 <= j < |r.value| ==>
                     r.value[j] == Column(GetQueryset(store).value[0], AttName(instance.value.meta.fields[j]))
    {
      if instance.None? {
        return Failure(TypeError(model.objectName));
      }
      var fields := instance.value.meta.fields;
      var tmp: seq<string> := [];
      var i := 0;
      while i < |fields|
        invariant 0 <= i <= |fields|
        invariant tmp == AttNames(fields[..i])
      {
        assert fields[..i + 1][..i] == fields[..i];
        if fields[i].kind.IsForeignKey() {
          tmp := tmp + [fields[i].name + "_id"];
        } else {
          tmp := tmp + [fields[i].name];
        }
        i := i + 1;
      }
      assert fields[..i] == fields;
      AttNamesAt(fields);
      var values := ValuesList(store, tmp);
      if values.Failure? {
        return Failure(values.error);
      }
      if |values.value| == 0 {
        return Failure(DoesNotExist(instance.value.meta.objectName, NoHistoricalRecord));
      }
      r := Success(values.value[0]);
    }

    /**
      The state as of `date`. Scoped: the snapshot of the first base-query
      row dated no later than `date`, unless there is none or it is a
      deletion. Unscoped: per distinct `id` value, the latest such row's
      snapshot, deletions left out.
     */
    function AsOf(store: seq<HistoryRow>, date: int): (r: Result<AsOfResult>)
      ensures r.Success? ==> (r.value.Single? <==> instance.Some?)
    {
      var rows :- GetQueryset(store);
      var queryset := FilterDateLte(rows, date);
      if instance.Some? then
        var s :- PickAsOf(queryset, instance.value.meta.objectName);
        Success(Single(s))
      else
        var latest :- LatestPerIdentity(model, queryset, "id");
        Success(PerIdentity(latest))
    }
  }

  /** The field-name list has one entry per field, in order, with `_id` exactly on foreign keys. */
  lemma {:induction false} AttNamesAt(fields: seq<Field>)
    ensures |AttNames(fields)| == |fields|
    ensures forall j :: 0 <= j < |fields| && fields[j].kind.IsForeignKey() ==> AttNames(fields)[j] == fields[j].name + "_id"
    ensures forall j :: 0 <= j < |fields| && !fields[j].kind.IsForeignKey() ==> AttNames(fields)[j] == fields[j].name
  {
    if fields != [] {
      var init := fields[..|fields| - 1];
      AttNamesAt(init);
      forall j | 0 <= j < |fields| - 1 ensures fields[j] == init[j] { }
    }
  }
}
