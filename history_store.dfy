/**
  The history table as the history manager sees it through the ORM: a
  sequence of history rows in the table's default ordering, and the few
  query operations the manager composes (equality filter, date cut-off,
  `latest`, the distinct values of a column).
 */
module HistoryStore {

  /** A column value as the ORM hands it back. */
  datatype Value = Null | Int(i: int) | Text(s: string)

  /** The stored field values of one history row, keyed by lookup name. */
  type Snapshot = map<string, Value>

  /** `history_type`: created, changed or deleted. */
  datatype ChangeType = Created | Changed | Deleted {
    /** The one-character code stored in the history table; `'-'` marks exactly a deletion. */
    function Symbol(): (c: char)
      ensures c == '-' <==> Deleted?
      ensures c in {'+', '~', '-'}
    {
      match this
      case Created => '+'
      case Changed => '~'
      case Deleted => '-'
    }
  }

  /** One change of an original record: its field values, when, and what kind of change. */
  datatype HistoryRow = HistoryRow(snapshot: Snapshot, historyDate: int, historyType: ChangeType)

  /** The value a row holds under a lookup name; a name the row does not carry reads as NULL. */
  function Column(row: HistoryRow, name: string): Value {
    if name in row.snapshot then row.snapshot[name] else Null
  }

  /** `sub` is `s` with some rows dropped and the rest left in their order. */
  ghost predicate IsSubsequence(sub: seq<HistoryRow>, s: seq<HistoryRow>) {
    if sub == [] then true
    else if s == [] then false
    else (sub[0] == s[0] && IsSubsequence(sub[1..], s[1..])) || IsSubsequence(sub, s[1..])
  }

  /** `filter(name=value)`: the rows whose column equals `value`, in their order. */
  function FilterEq(rows: seq<HistoryRow>, name: string, value: Value): (out: seq<HistoryRow>)
    ensures |out| <= |rows|
    ensures IsSubsequence(out, rows)
    ensures forall row :: row in out <==> row in rows && Column(row, name) == value
    ensures forall row :: multiset(out)[row] == if Column(row, name) == value then multiset(rows)[row] else 0
  {
    assert rows != [] ==> rows == [rows[0]] + rows[1..];
    if rows == [] then []
    else if Column(rows[0], name) == value then [rows[0]] + FilterEq(rows[1..], name, value)
    else FilterEq(rows[1..], name, value)
  }

  /** `filter(history_date__lte=date)`: the rows dated no later than `date`, in their order. */
  function FilterDateLte(rows: seq<HistoryRow>, date: int): (out: seq<HistoryRow>)
    ensures |out| <= |rows|
    ensures IsSubsequence(out, rows)
    ensures forall row :: row in out <==> row in rows && row.historyDate <= date
    ensures forall row :: multiset(out)[row] == if row.historyDate <= date then multiset(rows)[row] else 0
  {
    assert rows != [] ==> rows == [rows[0]] + rows[1..];
    if rows == [] then []
    else if rows[0].historyDate <= date then [rows[0]] + FilterDateLte(rows[1..], date)
    else FilterDateLte(rows[1..], date)
  }

  /** The default ordering of the history table: most recent first. */
  ghost predicate SortedByDateDesc(rows: seq<HistoryRow>) {
    forall i, j :: 0 <= i < j < |rows| ==> rows[i].historyDate >= rows[j].historyDate
  }

  /**
    `latest('history_date')`: a row of greatest date. Among rows sharing that
    date the database picks one; here it is the first of them in row order.
   */
  function Latest(rows: seq<HistoryRow>): (r: HistoryRow)
    requires rows != []
    ensures r in rows
    ensures forall row :: row in rows ==> row.historyDate <= r.historyDate
  {
    if |rows| == 1 then rows[0]
    else
      var later := Latest(rows[1..]);
      if later.historyDate > rows[0].historyDate then later else rows[0]
  }

  /** `set(values_list(name, flat=True))`: the distinct values of a column. */
  function Identities(rows: seq<HistoryRow>, name: string): (ids: set<Value>)
    ensures forall v :: v in ids <==> exists row :: row in rows && Column(row, name) == v
  {
    set row | row in rows :: Column(row, name)
  }

  /** `values_list(*names)` of one row: its values under `names`, positionally. */
  function Project(row: HistoryRow, names: seq<string>): seq<Value> {
    seq(|names|, j requires 0 <= j < |names| => Column(row, names[j]))
  }

  /** Filtering keeps the most-recent-first ordering. */
  lemma {:induction false} FilterEqSorted(rows: seq<HistoryRow>, name: string, value: Value)
    requires SortedByDateDesc(rows)
    ensures SortedByDateDesc(FilterEq(rows, name, value))
  {
    if rows != [] {
      FilterEqSorted(rows[1..], name, value);
      var rest := FilterEq(rows[1..], name, value);
      forall row | row in rest ensures row.historyDate <= rows[0].historyDate {
        var k :| 0 <= k < |rows[1..]| && rows[1..][k] == row;
        assert rows[k + 1] == row;
      }
    }
  }

  /** The date cut-off keeps the most-recent-first ordering. */
  lemma {:induction false} FilterDateLteSorted(rows: seq<HistoryRow>, date: int)
    requires SortedByDateDesc(rows)
    ensures SortedByDateDesc(FilterDateLte(rows, date))
  {
    if rows != [] {
      FilterDateLteSorted(rows[1..], date);
      var rest := FilterDateLte(rows[1..], date);
      forall row | row in rest ensures row.historyDate <= rows[0].historyDate {
        var k :| 0 <= k < |rows[1..]| && rows[1..][k] == row;
        assert rows[k + 1] == row;
      }
    }
  }

  /** Filtering by identity and cutting off by date commute. */
  lemma {:induction false} FilterCommute(rows: seq<HistoryRow>, name: string, value: Value, date: int)
    ensures FilterDateLte(FilterEq(rows, name, value), date) == FilterEq(FilterDateLte(rows, date), name, value)
  {
    if rows != [] {
      FilterCommute(rows[1..], name, value, date);
    }
  }

  /**
    In most-recent-first order, the first row is a latest row; when no other
    row shares its date, it is the row `latest` returns, whichever row the
    database would pick among equal dates.
   */
  lemma LatestOfSorted(rows: seq<HistoryRow>)
    requires rows != [] && SortedByDateDesc(rows)
    ensures Latest(rows).historyDate == rows[0].historyDate
    ensures (forall j :: 0 < j < |rows| ==> rows[j].historyDate < rows[0].historyDate) ==> Latest(rows) == rows[0]
  {
    var r := Latest(rows);
    var k :| 0 <= k < |rows| && rows[k] == r;
    assert rows[0].historyDate >= rows[k].historyDate;
  }
}
