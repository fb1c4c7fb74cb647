/**
 * The entries table over a query model: one row per record the query has
 * loaded, one column per dotted name. Columns are inferred from the rows
 * (the state's keys, or an object's attributes when rows are shown as
 * objects), snapshots are loaded through a cache, and a cell's value is
 * found by walking the dotted name through the record's fields.
 */
module Records {
  import opened Values
  import opened Utils
  import Query
  import EntryTable
  import EntryDetails

  /** The value shown for a record without the column's attribute. */
  const UNSET := Str("")

  const DEFAULT_COLUMNS: seq<string> := [TYPE_ID, CREATION_TIME, SNAPSHOT_TIME, VERSION, STATE]

  /** `mincepy.ASCENDING` and `mincepy.DESCENDING`. */
  const ASCENDING := 1
  const DESCENDING := -1

  const STATE_PREFIX := "state."

  predicate Distinct(s: seq<string>) {
    forall i, j :: 0 <= i < j < |s| ==> s[i] != s[j]
  }

  /** The columns begin with the defaults, as every column operation of the table keeps them. */
  predicate StartsWithDefaults(cols: seq<string>) {
    |cols| >= |DEFAULT_COLUMNS| && cols[..|DEFAULT_COLUMNS|] == DEFAULT_COLUMNS
  }

  /** The column names `"state.<key>"` for a dict state's keys. */
  function StateColumns(keys: set<string>): (cols: set<string>)
    ensures forall k :: k in keys ==> STATE_PREFIX + k in cols
    ensures forall c :: c in cols ==> |c| >= 6 && c[..6] == STATE_PREFIX && c[6..] in keys
  {
    set k | k in keys :: STATE_PREFIX + k
  }

  // ---------------------------------------------------------------------------
  // What the table shows, as a value

  /** The part of the table's state that decides what it shows. */
  datatype TableState = TableState(
    records: seq<Record>,
    columns: seq<string>,
    cache: map<Value, Value>,
    historian: Option<Historian>,
    showObjects: bool,
    objDict: EntryDetails.ObjDict)

  /** `historian.load_snapshot(ref)`, with a failed load giving None. */
  function Loaded(h: Historian, ref: Value): Value {
    match h.LoadSnapshot(ref)
    case Ok(v) => v
    case Err(_) => Null
  }

  /**
   * The snapshot `get_snapshot` gives for `ref`: the cached one, else a
   * fresh load; with no historian the load raises AttributeError.
   */
  function Lookup(cache: map<Value, Value>, h: Option<Historian>, ref: Value): Result<Value> {
    if ref in cache then Ok(cache[ref])
    else if h.None? then Err(AttributeError)
    else Ok(Loaded(h.value, ref))
  }

  /** Two caches that answer every snapshot request alike. */
  ghost predicate SameLookups(c1: map<Value, Value>, c2: map<Value, Value>, h: Option<Historian>) {
    forall ref :: Lookup(c1, h, ref) == Lookup(c2, h, ref)
  }

  /** `get_snapshot(row)`; a row with no record raises AttributeError. */
  function SnapshotAt(t: TableState, row: int): Result<Value> {
    if row < 0 || row >= |t.records| then Err(AttributeError)
    else Lookup(t.cache, t.historian, t.records[row].SnapshotId())
  }

  /**
   * `_get_columns_for(row)`: as objects, the attribute names of the
   * row's snapshot; otherwise `"state.<key>"` for each key of a dict
   * state, and nothing for any other state.
   */
  function ColumnsOf(t: TableState, row: int): (r: Result<set<string>>)
    ensures r.Err? <==> row < 0 || row >= |t.records| || (t.showObjects && SnapshotAt(t, row).Err?)
    ensures r.Ok? && !t.showObjects ==>
              r.value == if t.records[row].state.Map? then StateColumns(t.records[row].state.entries.Keys) else {}
    ensures r.Ok? && t.showObjects ==>
              var d := t.objDict(SnapshotAt(t, row).value);
              r.value == if d.Some? then d.value.Keys else {}
  {
    if row < 0 || row >= |t.records| then Err(AttributeError)
    else if t.showObjects then
      match SnapshotAt(t, row)
      case Err(e) => Err(e)
      case Ok(obj) =>
        var d := t.objDict(obj);
        if d.Some? then Ok(d.value.Keys) else Ok({})
    else
      var state := t.records[row].state;
      if state.Map? then Ok(StateColumns(state.entries.Keys)) else Ok({})
  }

  /** The columns of rows `lo .. hi-1` together; the first failing row fails the lot. */
  function UnionColumns(t: TableState, lo: int, hi: int): Result<set<string>>
    decreases hi - lo
  {
    if hi <= lo then Ok({})
    else
      match UnionColumns(t, lo, hi - 1)
      case Err(e) => Err(e)
      case Ok(u) =>
        match ColumnsOf(t, hi - 1)
        case Err(e) => Err(e)
        case Ok(c) => Ok(u + c)
  }

  /** The union succeeds exactly when every row's columns do. */
  lemma {:induction false} UnionOk(t: TableState, lo: int, hi: int)
    ensures UnionColumns(t, lo, hi).Ok? <==> forall row :: lo <= row < hi ==> ColumnsOf(t, row).Ok?
    decreases hi - lo
  {
    if hi > lo {
      UnionOk(t, lo, hi - 1);
    }
  }

  /**
   * A successful union holds every row's columns, and each of its names
   * comes from some row.
   */
  lemma {:induction false} UnionCovers(t: TableState, lo: int, hi: int, c: string)
    requires UnionColumns(t, lo, hi).Ok?
    ensures forall row :: lo <= row < hi ==> ColumnsOf(t, row).Ok? && ColumnsOf(t, row).value <= UnionColumns(t, lo, hi).value
    ensures c in UnionColumns(t, lo, hi).value ==> exists row :: lo <= row < hi && ColumnsOf(t, row).Ok? && c in ColumnsOf(t, row).value
    decreases hi - lo
  {
    if hi > lo {
      var u := UnionColumns(t, lo, hi - 1).value;
      UnionCovers(t, lo, hi - 1, c);
      assert UnionColumns(t, lo, hi).value == u + ColumnsOf(t, hi - 1).value;
      if c in UnionColumns(t, lo, hi).value && c !in u {
        assert c in ColumnsOf(t, hi - 1).value;
      }
    }
  }

  /** The columns shown do not change which columns the rows bring. */
  lemma {:induction false} UnionIgnoresColumns(t: TableState, cols: seq<string>, lo: int, hi: int)
    ensures UnionColumns(t.(columns := cols), lo, hi) == UnionColumns(t, lo, hi)
    decreases hi - lo
  {
    if hi > lo {
      UnionIgnoresColumns(t, cols, lo, hi - 1);
      assert ColumnsOf(t.(columns := cols), hi - 1) == ColumnsOf(t, hi - 1);
    }
  }

  /** A failing run of rows fails every longer run. */
  lemma {:induction false} UnionPrefixFails(t: TableState, lo: int, n: int, hi: int)
    requires lo <= n <= hi && UnionColumns(t, lo, n).Err?
    ensures UnionColumns(t, lo, hi) == UnionColumns(t, lo, n)
    decreases hi - n
  {
    if n < hi {
      UnionPrefixFails(t, lo, n + 1, hi);
    }
  }

  lemma SnapshotStable(t: TableState, c2: map<Value, Value>, row: int)
    requires SameLookups(t.cache, c2, t.historian)
    ensures SnapshotAt(t.(cache := c2), row) == SnapshotAt(t, row)
  {
    if 0 <= row < |t.records| {
      var ref := t.records[row].SnapshotId();
      assert Lookup(t.cache, t.historian, ref) == Lookup(c2, t.historian, ref);
    }
  }

  /** A cache that answers alike gives every row the same columns, so the same union. */
  lemma {:induction false} UnionStable(t: TableState, c2: map<Value, Value>, lo: int, hi: int)
    requires SameLookups(t.cache, c2, t.historian)
    ensures UnionColumns(t.(cache := c2), lo, hi) == UnionColumns(t, lo, hi)
    decreases hi - lo
  {
    if hi > lo {
      UnionStable(t, c2, lo, hi - 1);
      SnapshotStable(t, c2, hi - 1);
    }
  }

  /** In the state view, every inferred column is a `"state."` column. */
  lemma {:induction false} StateViewColumns(t: TableState, lo: int, hi: int)
    requires !t.showObjects && UnionColumns(t, lo, hi).Ok?
    ensures forall c :: c in UnionColumns(t, lo, hi).value ==> |c| >= 6 && c[..6] == STATE_PREFIX
    decreases hi - lo
  {
    if hi > lo {
      StateViewColumns(t, lo, hi - 1);
    }
  }

  /** A `"state."` name is never one of the default columns. */
  lemma NotDefault(c: string)
    requires |c| >= 6 && c[..6] == STATE_PREFIX
    ensures c !in DEFAULT_COLUMNS
  {
    assert c[0] == STATE_PREFIX[0] && c[1] == STATE_PREFIX[1];
  }

  /** The default column names differ from one another. */
  lemma DefaultsDistinct()
    ensures Distinct(DEFAULT_COLUMNS)
  {
    var d := DEFAULT_COLUMNS;
    assert d[0][0] == 't' && d[1][0] == 'c' && d[2][0] == 's' && d[3][0] == 'v' && d[4][0] == 's';
    assert d[2][1] == 'n' && d[4][1] == 't';
  }

  /** The default columns followed by sorted `"state."` columns never repeat a name. */
  lemma StateViewDistinct(u: set<string>)
    requires forall c :: c in u ==> |c| >= 6 && c[..6] == STATE_PREFIX
    ensures Distinct(DEFAULT_COLUMNS + SortedKeys(u))
  {
    forall c | c in u ensures c !in DEFAULT_COLUMNS {
      NotDefault(c);
    }
    var sorted := SortedKeys(u);
    var s := DEFAULT_COLUMNS + sorted;
    var n := |DEFAULT_COLUMNS|;
    DefaultsDistinct();
    forall i, j | 0 <= i < j < |s| ensures s[i] != s[j] {
      if j < n {
        assert s[i] == DEFAULT_COLUMNS[i] && s[j] == DEFAULT_COLUMNS[j];
      } else {
        assert s[j] == sorted[j - n];
        if i < n {
          assert s[i] in DEFAULT_COLUMNS;
        } else {
          assert s[i] == sorted[i - n];
        }
      }
    }
  }

  /**
   * Appending the sorted names of `u` not already present keeps the old
   * columns as a prefix (so the defaults stay first) and keeps columns free
   * of repeats free of them; afterwards the columns are exactly the old ones
   * and those of `u`.
   */
  lemma AppendNewColumns(cols: seq<string>, u: set<string>)
    ensures var r := cols + SortedKeys(u - set c | c in cols);
            (Distinct(cols) ==> Distinct(r)) && r[..|cols|] == cols &&
            (StartsWithDefaults(cols) ==> StartsWithDefaults(r)) &&
            forall c :: c in r <==> c in cols || c in u
  {
    var added := SortedKeys(u - set c | c in cols);
    var r := cols + added;
    assert r[..|cols|] == cols;
    if StartsWithDefaults(cols) {
      assert r[..|DEFAULT_COLUMNS|] == cols[..|DEFAULT_COLUMNS|];
    }
    if Distinct(cols) {
      forall i, j | 0 <= i < j < |r| ensures r[i] != r[j] {
        if i >= |cols| {
          assert r[i] == added[i - |cols|] && r[j] == added[j - |cols|];
        } else if j >= |cols| {
          assert r[j] in added;
        }
      }
    }
  }

  /** A name with one dot in it splits into the parts around the dot. */
  lemma {:induction false} SplitPair(a: string, b: string)
    requires '.' !in a && '.' !in b
    ensures Split(a + "." + b, '.') == [a, b]
  {
    if a == [] {
      assert a + "." + b == "." + b;
      assert ("." + b)[1..] == b;
      SplitWithoutSep(b, '.');
    } else {
      SplitPair(a[1..], b);
      assert (a + "." + b)[1..] == a[1..] + "." + b;
      assert a == [a[0]] + a[1..];
    }
  }

  /** The dict-keyed path of a dotted name. */
  function KeyPath(parts: seq<string>): (p: seq<PathKey>)
    ensures |p| == |parts| && forall i :: 0 <= i < |parts| ==> p[i] == Key(parts[i])
  {
    seq(|parts|, i requires 0 <= i < |parts| => Key(parts[i]))
  }

  /** The column at `col`, with Python's negative indices. */
  function ColumnAt(columns: seq<string>, col: int): (r: Result<string>)
    ensures r.Ok? <==> -|columns| <= col < |columns|
    ensures r.Ok? && col >= 0 ==> r.value == columns[col]
    ensures r.Ok? && col < 0 ==> r.value == columns[|columns| + col]
    ensures r.Err? ==> r.error == IndexError
  {
    if -|columns| <= col < |columns| then Ok(columns[if col < 0 then col + |columns| else col])
    else Err(IndexError)
  }

  /**
   * `_get_value(row, column)`: UNSET for an empty name; a name whose
   * first part is a record field is walked through the record (a failed
   * walk is UNSET, a type id is shown as its class when the historian
   * knows it); otherwise, as objects, the snapshot's attribute of that
   * name or UNSET, and UNSET in the state view.
   */
  function ValueAt(t: TableState, row: int, col: int): (r: Result<Value>)
    ensures ColumnAt(t.columns, col).Err? ==> r == Err(IndexError)
    ensures ColumnAt(t.columns, col) == Ok([]) ==> r == Ok(UNSET)
  {
    match ColumnAt(t.columns, col)
    case Err(e) => Err(e)
    case Ok(name) =>
      if name == [] then Ok(UNSET)
      else if row < 0 || row >= |t.records| then Err(AttributeError)
      else
        var path := Split(name, '.');
        var rec := t.records[row];
        if IsRecordField(path[0]) then
          match GetByPath(Map(AsDict(rec)), KeyPath(path))
          case Err(_) => Ok(UNSET)
          case Ok(v) =>
            if name != TYPE_ID then Ok(v)
            else if t.historian.None? then Err(AttributeError)
            else
              match t.historian.value.GetObjType(v)
              case Ok(cls) => Ok(cls)
              case Err(_) => Ok(v)
        else if t.showObjects then
          match SnapshotAt(t, row)
          case Err(e) => Err(e)
          case Ok(obj) =>
            var d := t.objDict(obj);
            if d.Some? && name in d.value then Ok(d.value[name]) else Ok(UNSET)
        else Ok(UNSET)
  }

  lemma ValueStable(t: TableState, c2: map<Value, Value>, row: int, col: int)
    requires SameLookups(t.cache, c2, t.historian)
    ensures ValueAt(t.(cache := c2), row, col) == ValueAt(t, row, col)
  {
    SnapshotStable(t, c2, row);
  }

  /**
   * A column inferred from a row's state shows that row's entry: the
   * column `"state.<k>"` of a row whose state holds `k` gives the value
   * stored under `k`, in either view.
   */
  lemma StateColumnShowsEntry(t: TableState, row: int, col: int, k: string)
    requires 0 <= row < |t.records| && 0 <= col < |t.columns|
    requires t.records[row].state.Map? && k in t.records[row].state.entries
    requires t.columns[col] == STATE_PREFIX + k && '.' !in k
    ensures !t.showObjects ==> ColumnsOf(t, row).Ok? && t.columns[col] in ColumnsOf(t, row).value
    ensures ValueAt(t, row, col) == Ok(t.records[row].state.entries[k])
  {
    var rec := t.records[row];
    var name := t.columns[col];
    assert ColumnAt(t.columns, col) == Ok(name);
    assert name == STATE + "." + k;
    SplitPair(STATE, k);
    var path := Split(name, '.');
    assert path == [STATE, k];
    assert IsRecordField(path[0]);
    assert KeyPath(path) == [Key(STATE), Key(k)];
    StatePath(rec, k);
    assert name[0] != TYPE_ID[0];
  }

  /**
   * A `state.<k>` column on a row whose state is not a dict, or lacks `k`,
   * shows UNSET: the failed walk is caught.
   */
  lemma MissingStateEntryUnset(t: TableState, row: int, col: int, k: string)
    requires 0 <= row < |t.records| && 0 <= col < |t.columns|
    requires !(t.records[row].state.Map? && k in t.records[row].state.entries)
    requires t.columns[col] == STATE_PREFIX + k && '.' !in k
    ensures ValueAt(t, row, col) == Ok(UNSET)
  {
    var name := t.columns[col];
    assert ColumnAt(t.columns, col) == Ok(name);
    assert name == STATE + "." + k;
    SplitPair(STATE, k);
    assert IsRecordField(Split(name, '.')[0]);
    assert KeyPath(Split(name, '.')) == [Key(STATE), Key(k)];
    StatePath(t.records[row], k);
  }

  /** A record field's own column, other than the type id, shows that field. */
  lemma RecordFieldShown(t: TableState, row: int, col: int)
    requires 0 <= row < |t.records| && 0 <= col < |t.columns|
    requires IsRecordField(t.columns[col]) && t.columns[col] != TYPE_ID
    ensures ValueAt(t, row, col) == Ok(AsDict(t.records[row])[t.columns[col]])
  {
    var name := t.columns[col];
    assert ColumnAt(t.columns, col) == Ok(name);
    FieldPath(t.records[row], name);
  }

  /**
   * The type id column shows the class the historian gives for the
   * record's type id, the type id itself when the historian does not
   * know it, and raises without a historian.
   */
  lemma TypeIdShown(t: TableState, row: int, col: int)
    requires 0 <= row < |t.records| && 0 <= col < |t.columns| && t.columns[col] == TYPE_ID
    ensures t.historian.None? ==> ValueAt(t, row, col) == Err(AttributeError)
    ensures t.historian.Some? ==>
              var typeId := t.records[row].typeId;
              ValueAt(t, row, col) == Ok(if typeId in t.historian.value.types then t.historian.value.types[typeId] else typeId)
  {
    assert ColumnAt(t.columns, col) == Ok(TYPE_ID);
    FieldPath(t.records[row], TYPE_ID);
  }

  /** A record field name is one piece, and walking it gives the field. */
  lemma FieldPath(r: Record, f: string)
    requires IsRecordField(f)
    ensures f != [] && Split(f, '.') == [f] && IsRecordField(Split(f, '.')[0])
    ensures GetByPath(Map(AsDict(r)), KeyPath([f])) == Ok(AsDict(r)[f])
  {
    RecordFieldUndotted(f);
    SplitWithoutSep(f, '.');
    var d := Map(AsDict(r));
    assert KeyPath([f]) == [Key(f)] && [Key(f)][1..] == [];
    assert GetItem(d, Key(f)) == Ok(AsDict(r)[f]);
  }

  /**
   * A name that is not a record field is an attribute of the row's object:
   * in the state view it is UNSET; as objects it is the snapshot's
   * attribute of that name, UNSET when the object lacks it, and the
   * snapshot's failure when it cannot be had.
   */
  lemma AttributeShown(t: TableState, row: int, col: int)
    requires 0 <= row < |t.records| && 0 <= col < |t.columns|
    requires t.columns[col] != [] && !IsRecordField(Split(t.columns[col], '.')[0])
    ensures !t.showObjects ==> ValueAt(t, row, col) == Ok(UNSET)
    ensures t.showObjects && SnapshotAt(t, row).Err? ==> ValueAt(t, row, col) == Err(SnapshotAt(t, row).error)
    ensures t.showObjects && SnapshotAt(t, row).Ok? ==>
              var d := t.objDict(SnapshotAt(t, row).value);
              var name := t.columns[col];
              ValueAt(t, row, col) == Ok(if d.Some? && name in d.value then d.value[name] else UNSET)
  {
    assert ColumnAt(t.columns, col) == Ok(t.columns[col]);
  }

  /**
   * As objects, a column inferred from a row's object (and not shadowed by
   * a record field) shows that object's attribute.
   */
  lemma ObjectColumnShowsAttribute(t: TableState, row: int, col: int)
    requires 0 <= row < |t.records| && 0 <= col < |t.columns| && t.showObjects
    requires ColumnsOf(t, row).Ok? && t.columns[col] in ColumnsOf(t, row).value
    requires t.columns[col] != [] && !IsRecordField(Split(t.columns[col], '.')[0])
    ensures SnapshotAt(t, row).Ok? && t.objDict(SnapshotAt(t, row).value).Some?
    ensures ValueAt(t, row, col) == Ok(t.objDict(SnapshotAt(t, row).value).value[t.columns[col]])
  {
    AttributeShown(t, row, col);
  }

  /** The values of the selected cells, in selection order; the first failing cell fails the lot. */
  function ValuesAt(t: TableState, selection: seq<(int, int)>): Result<seq<Value>> {
    Collect(selection, (cell: (int, int)) => ValueAt(t, cell.0, cell.1))
  }

  /**
   * The selection's values are each selected cell's value, in selection
   * order, and they fail exactly when some cell's value fails.
   */
  lemma {:induction false} ValuesAtCells(t: TableState, selection: seq<(int, int)>)
    ensures var r := ValuesAt(t, selection);
            r.Ok? ==> |r.value| == |selection| &&
                      forall i :: 0 <= i < |selection| ==> ValueAt(t, selection[i].0, selection[i].1) == Ok(r.value[i])
    ensures ValuesAt(t, selection).Err? <==> exists i :: 0 <= i < |selection| && ValueAt(t, selection[i].0, selection[i].1).Err?
  {
    CollectEach(selection, (cell: (int, int)) => ValueAt(t, cell.0, cell.1));
  }

  /** One more cell: its value joins the list, or its failure fails the lot. */
  lemma ValuesStep(t: TableState, selection: seq<(int, int)>, i: int, vs: seq<Value>)
    requires 0 <= i < |selection| && ValuesAt(t, selection[..i]) == Ok(vs)
    ensures var v := ValueAt(t, selection[i].0, selection[i].1);
            ValuesAt(t, selection[..i + 1]) == if v.Err? then Err(v.error) else Ok(vs + [v.value])
  {
    assert selection[..i + 1][..i] == selection[..i];
  }

  function Rows(results: Option<seq<Record>>): seq<Record> {
    if results.None? then [] else results.value
  }

  /** `get_record(row)`: None outside `[0, rowCount)`. */
  function RecordAt(records: seq<Record>, row: int): (r: Option<Record>)
    ensures r.None? <==> row < 0 || row >= |records|
    ensures r.Some? ==> r.value == records[row]
  {
    if row < 0 || row >= |records| then None else Some(records[row])
  }

  /** What `get_selected` gives: the selected rows' records and the selected cells' values. */
  datatype RecordSelection = RecordSelection(
    dataRecords: Option<EntryTable.Grouped<Option<Record>>>,
    values: Option<EntryTable.Grouped<Value>>)

  // ---------------------------------------------------------------------------
  // The table

  class EntriesTable {
    const queryModel: Query.QueryModel
    const objDict: EntryDetails.ObjDict
    var columns: seq<string>
    var showObjects: bool
    /** Loaded snapshots by snapshot id; a failed load is cached as None. */
    var snapshots: map<Value, Value>
    /** The values `object_activated` carried, oldest first. */
    var activated: seq<Value>

    /** A new table shows objects, the default columns and no cached snapshot. */
    constructor(queryModel: Query.QueryModel, objDict: EntryDetails.ObjDict)
      ensures this.queryModel == queryModel && this.objDict == objDict
      ensures columns == DEFAULT_COLUMNS && showObjects && snapshots == map[] && activated == []
    {
      this.queryModel := queryModel;
      this.objDict := objDict;
      columns := DEFAULT_COLUMNS;
      showObjects := true;
      snapshots := map[];
      activated := [];
    }

    function State(): TableState
      reads this, queryModel, queryModel.db
    {
      TableState(Rows(queryModel.results), columns, snapshots, queryModel.db.historian, showObjects, objDict)
    }

    function RowCount(): nat
      reads this, queryModel
    {
      queryModel.RowCount()
    }

    function GetRecord(row: int): (r: Option<Record>)
      reads this, queryModel
      ensures r == RecordAt(Rows(queryModel.results), row)
    {
      RecordAt(Rows(queryModel.results), row)
    }

    /**
     * `get_snapshot(row)`: the cached snapshot, or one load whose outcome is
     * cached (a failed load as None), so each snapshot id is loaded at most
     * once and no later request sees a different answer.
     */
    method GetSnapshot(row: int) returns (r: Result<Value>)
      modifies this
      ensures r == SnapshotAt(old(State()), row)
      ensures r.Ok? && old(State()).records[row].SnapshotId() !in old(snapshots) ==>
                snapshots == old(snapshots)[old(State()).records[row].SnapshotId() := r.value]
      ensures !(r.Ok? && old(State()).records[row].SnapshotId() !in old(snapshots)) ==> snapshots == old(snapshots)
      ensures SameLookups(old(snapshots), snapshots, queryModel.db.historian)
      ensures columns == old(columns) && showObjects == old(showObjects) && activated == old(activated)
    {
      var rec := GetRecord(row);
      if rec.None? {
        return Err(AttributeError);
      }
      var ref := rec.value.SnapshotId();
      if ref !in snapshots {
        var h := queryModel.db.historian;
        if h.None? {
          return Err(AttributeError);
        }
        var loaded := Loaded(h.value, ref);
        snapshots := snapshots[ref := loaded];
      }
      return Ok(snapshots[ref]);
    }

    /** `_get_columns_for(row)`, loading the row's snapshot when shown as objects. */
    method ColumnsFor(row: int) returns (r: Result<set<string>>)
      modifies this
      ensures r == ColumnsOf(old(State()), row)
      ensures SameLookups(old(snapshots), snapshots, queryModel.db.historian)
      ensures columns == old(columns) && showObjects == old(showObjects) && activated == old(activated)
    {
      var rec := GetRecord(row);
      if rec.None? {
        return Err(AttributeError);
      }
      if showObjects {
        var obj := GetSnapshot(row);
        if obj.Err? {
          return Err(obj.error);
        }
        var d := objDict(obj.value);
        return if d.Some? then Ok(d.value.Keys) else Ok({});
      }
      var state := rec.value.state;
      return if state.Map? then Ok(StateColumns(state.entries.Keys)) else Ok({});
    }

    /** The columns of rows `lo .. hi-1` together, row by row. */
    method CollectColumns(lo: int, hi: int) returns (r: Result<set<string>>)
      modifies this
      ensures r == UnionColumns(old(State()), lo, hi)
      ensures SameLookups(old(snapshots), snapshots, queryModel.db.historian)
      ensures columns == old(columns) && showObjects == old(showObjects) && activated == old(activated)
    {
      var t0 := State();
      var found: set<string> := {};
      var row := lo;
      while row < hi
        invariant lo <= row <= hi || (row == lo && hi <= lo)
        invariant State() == t0.(cache := snapshots)
        invariant SameLookups(t0.cache, snapshots, t0.historian)
        invariant UnionColumns(t0, lo, row) == Ok(found)
        invariant activated == old(activated)
        decreases hi - row
      {
        ghost var before := snapshots;
        var c := ColumnsFor(row);
        SnapshotStable(t0, before, row);
        if c.Err? {
          assert UnionColumns(t0, lo, row + 1) == Err(c.error);
          UnionPrefixFails(t0, lo, row + 1, hi);
          return Err(c.error);
        }
        found := found + c.value;
        row := row + 1;
      }
      assert UnionColumns(t0, lo, hi) == Ok(found);
      return Ok(found);
    }

    /**
     * `set_show_as_objects(b)`: nothing when the mode is already `b`;
     * otherwise the columns beyond the defaults are dropped (when there are
     * any) and the sorted union of every row's columns in the new mode is
     * appended. A row that fails leaves the columns without those beyond
     * the defaults.
     */
    method SetShowAsObjects(asObjects: bool) returns (ok: bool)
      modifies this
      ensures asObjects == old(showObjects) ==> ok && columns == old(columns) && snapshots == old(snapshots)
      ensures showObjects == asObjects && activated == old(activated)
      ensures asObjects != old(showObjects) ==>
                var u := UnionColumns(old(State()).(showObjects := asObjects), 0, old(RowCount()));
                var base := if |old(columns)| > |DEFAULT_COLUMNS| then DEFAULT_COLUMNS else old(columns);
                (ok <==> u.Ok?) &&
                (ok ==> columns == base + SortedKeys(u.value)) &&
                (!ok ==> columns == base)
      ensures StartsWithDefaults(old(columns)) ==> StartsWithDefaults(columns)
      ensures ok && !asObjects && old(showObjects) && StartsWithDefaults(old(columns)) ==> Distinct(columns)
      ensures SameLookups(old(snapshots), snapshots, queryModel.db.historian)
    {
      if showObjects == asObjects {
        return true;
      }
      ghost var t0 := State().(showObjects := asObjects);
      var n := RowCount();
      var cols0 := columns;
      showObjects := asObjects;
      if |columns| > |DEFAULT_COLUMNS| {
        columns := DEFAULT_COLUMNS;
      }
      var base := columns;
      if StartsWithDefaults(cols0) {
        assert base == DEFAULT_COLUMNS by {
          if |cols0| == |DEFAULT_COLUMNS| {
            assert cols0 == cols0[..|DEFAULT_COLUMNS|];
          }
        }
      }
      UnionIgnoresColumns(t0, base, 0, n);
      var u := CollectColumns(0, n);
      assert u == UnionColumns(t0, 0, n);
      if u.Err? {
        return false;
      }
      if !asObjects && StartsWithDefaults(cols0) {
        StateViewColumns(t0, 0, n);
        StateViewDistinct(u.value);
      }
      columns := base + SortedKeys(u.value);
      assert StartsWithDefaults(cols0) ==> columns[..|DEFAULT_COLUMNS|] == base;
      return true;
    }

    /**
     * `_query_rows_inserted(first, last)`: the names that rows `first ..
     * last` bring and the table lacks are appended, sorted. A row that
     * fails leaves the columns as they were.
     */
    method QueryRowsInserted(first: int, last: int) returns (ok: bool)
      modifies this
      ensures var u := UnionColumns(old(State()), first, last + 1);
              (ok <==> u.Ok?) &&
              (ok ==> columns == old(columns) + SortedKeys(u.value - set c | c in old(columns))) &&
              (!ok ==> columns == old(columns))
      ensures ok && Distinct(old(columns)) ==> Distinct(columns)
      ensures StartsWithDefaults(old(columns)) ==> StartsWithDefaults(columns)
      ensures ok ==> forall c :: c in columns <==> c in old(columns) || c in UnionColumns(old(State()), first, last + 1).value
      ensures SameLookups(old(snapshots), snapshots, queryModel.db.historian)
      ensures showObjects == old(showObjects) && activated == old(activated)
    {
      ghost var t0 := State();
      var cols := columns;
      var u := CollectColumns(first, last + 1);
      assert u == UnionColumns(t0, first, last + 1);
      if u.Err? {
        return false;
      }
      var added := u.value - set c | c in cols;
      AppendNewColumns(cols, u.value);
      columns := cols + SortedKeys(added);
      return true;
    }

    /** `_invalidate()`: the query was reset, so the defaults and an empty cache. */
    method Invalidate()
      modifies this
      ensures columns == DEFAULT_COLUMNS && snapshots == map[]
      ensures showObjects == old(showObjects) && activated == old(activated)
    {
      snapshots := map[];
      columns := DEFAULT_COLUMNS;
    }

    /** `refresh()`: the query reloads, and its reset reaches this table. */
    method Refresh()
      modifies this, queryModel
      ensures queryModel.results == Some([]) && queryModel.query == old(queryModel.query)
      ensures columns == DEFAULT_COLUMNS && snapshots == map[]
      ensures showObjects == old(showObjects) && activated == old(activated)
    {
      queryModel.InvalidateResults();
      Invalidate();
    }

    /**
     * A batch reaching the query model: it is appended to the results and
     * the rows it adds bring their columns into this table.
     */
    method InjectBatch(batch: seq<Record>) returns (ok: bool)
      modifies this, queryModel
      ensures queryModel.query == old(queryModel.query)
      ensures old(queryModel.results).None? ==> !ok && queryModel.results == old(queryModel.results) && columns == old(columns)
      ensures old(queryModel.results).Some? ==> queryModel.results == Some(old(queryModel.results).value + batch)
      ensures ok ==> old(queryModel.results).Some?
      ensures ok ==>
                var t := old(State());
                var u := UnionColumns(t.(records := t.records + batch), |t.records|, |t.records| + |batch|);
                u.Ok? && columns == t.columns + SortedKeys(u.value - set c | c in t.columns)
    {
      var n := queryModel.RowCount();
      ghost var t0 := State();
      ok := queryModel.InjectResults(batch);
      if !ok {
        return;
      }
      assert State() == t0.(records := t0.records + batch);
      ok := QueryRowsInserted(n, n + |batch| - 1);
    }

    /** `_get_value(row, column)` (also `data(index, DataRole)`). */
    method GetValue(row: int, col: int) returns (r: Result<Value>)
      modifies this
      ensures r == ValueAt(old(State()), row, col)
      ensures SameLookups(old(snapshots), snapshots, queryModel.db.historian)
      ensures columns == old(columns) && showObjects == old(showObjects) && activated == old(activated)
    {
      var column := ColumnAt(columns, col);
      if column.Err? {
        return Err(column.error);
      }
      var name := column.value;
      if name == [] {
        return Ok(UNSET);
      }
      var rec := GetRecord(row);
      if rec.None? {
        return Err(AttributeError);
      }
      var path := Split(name, '.');
      if IsRecordField(path[0]) || !showObjects {
        return ValueAt(State(), row, col);
      }
      var obj := GetSnapshot(row);
      if obj.Err? {
        return Err(obj.error);
      }
      var d := objDict(obj.value);
      return if d.Some? && name in d.value then Ok(d.value[name]) else Ok(UNSET);
    }

    /**
     * `sort(column, order)`: the query's sort becomes `{name: 1}` for
     * ascending and `{name: -1}` for descending, every other query key
     * kept. The fall-back for a missing name cannot be reached. A sort that
     * changes the query resets the query model, and its `modelReset`
     * reaches `_invalidate`: the default columns and an empty cache.
     */
    method Sort(col: int, ascending: bool) returns (r: Result<()>)
      modifies this, queryModel
      ensures ColumnAt(old(columns), col).Err? <==> r.Err?
      ensures r.Err? ==> r.error == IndexError && queryModel.query == old(queryModel.query) &&
                         queryModel.results == old(queryModel.results) &&
                         columns == old(columns) && snapshots == old(snapshots)
      ensures r.Ok? ==>
                var criterion := Map(map[ColumnAt(old(columns), col).value := Int(if ascending then ASCENDING else DESCENDING)]);
                queryModel.query == old(queryModel.query)[Query.SORT_KEY := criterion] &&
                (criterion != Query.Get(old(queryModel.query), Query.SORT_KEY) ==>
                   queryModel.results == Some([]) && columns == DEFAULT_COLUMNS && snapshots == map[]) &&
                (criterion == Query.Get(old(queryModel.query), Query.SORT_KEY) ==>
                   queryModel.results == old(queryModel.results) && columns == old(columns) && snapshots == old(snapshots))
      ensures showObjects == old(showObjects) && activated == old(activated)
    {
      var column := ColumnAt(columns, col);
      if column.Err? {
        return Err(column.error);
      }
      var criterion := Map(map[column.value := Int(if ascending then ASCENDING else DESCENDING)]);
      var changed := criterion != Query.Get(queryModel.query, Query.SORT_KEY);
      queryModel.SetSort(criterion);
      if changed {
        Invalidate();
      }
      return Ok(());
    }

    /** `activate_entry(index)`: `object_activated` carries the cell's value unless it is None or UNSET. */
    method ActivateEntry(row: int, col: int) returns (r: Result<()>)
      modifies this
      ensures var v := ValueAt(old(State()), row, col);
              (r.Err? <==> v.Err?) &&
              (v.Ok? && v.value != Null && v.value != UNSET ==> activated == old(activated) + [v.value]) &&
              (!(v.Ok? && v.value != Null && v.value != UNSET) ==> activated == old(activated))
      ensures columns == old(columns) && showObjects == old(showObjects)
    {
      var v := GetValue(row, col);
      if v.Err? {
        return Err(v.error);
      }
      if v.value != Null && v.value != UNSET {
        activated := activated + [v.value];
      }
      return Ok(());
    }
  }

  class EntriesTableController {
    const table: EntriesTable

    constructor(table: EntriesTable)
      ensures this.table == table
    {
      this.table := table;
    }

    /** The data-role values of the selected cells, one by one. */
    method SelectedValues(selection: seq<(int, int)>) returns (r: Result<seq<Value>>)
      modifies table
      ensures r == ValuesAt(old(table.State()), selection)
      ensures SameLookups(old(table.snapshots), table.snapshots, table.queryModel.db.historian)
      ensures table.columns == old(table.columns) && table.showObjects == old(table.showObjects)
    {
      var t0 := table.State();
      var values: seq<Value> := [];
      for i := 0 to |selection|
        invariant table.State() == t0.(cache := table.snapshots)
        invariant SameLookups(t0.cache, table.snapshots, t0.historian)
        invariant ValuesAt(t0, selection[..i]) == Ok(values)
      {
        ghost var before := table.snapshots;
        var v := table.GetValue(selection[i].0, selection[i].1);
        ValueStable(t0, before, selection[i].0, selection[i].1);
        ValuesStep(t0, selection, i, values);
        if v.Err? {
          ValuesPrefixFails(t0, selection, i + 1);
          return Err(v.error);
        }
        values := values + [v.value];
      }
      assert selection[..|selection|] == selection;
      return Ok(values);
    }

    /**
     * `get_selected()`: the records of the distinct selected rows in
     * ascending order and the values of the selected cells, each group a
     * single item when it has one member and left out when empty.
     */
    method GetSelected(selection: seq<(int, int)>) returns (r: Result<RecordSelection>)
      modifies table
      ensures var rows := EntryTable.SelectedRows(selection);
              r.Ok? ==>
                var records := Rows(table.queryModel.results);
                r.value.dataRecords == EntryTable.Group(seq(|rows|, i requires 0 <= i < |rows| => RecordAt(records, rows[i])))
      ensures r.Err? <==> ValuesAt(old(table.State()), selection).Err?
      ensures r.Ok? ==> r.value.values == EntryTable.Group(ValuesAt(old(table.State()), selection).value)
    {
      var rows := EntryTable.SelectedRows(selection);
      var all := Rows(table.queryModel.results);
      var records := seq(|rows|, i requires 0 <= i < |rows| => RecordAt(all, rows[i]));
      var values := SelectedValues(selection);
      if values.Err? {
        return Err(values.error);
      }
      return Ok(RecordSelection(EntryTable.Group(records), EntryTable.Group(values.value)));
    }
  }

  /** A failing prefix of the selection fails the whole selection. */
  lemma {:induction false} ValuesPrefixFails(t: TableState, selection: seq<(int, int)>, n: int)
    requires 0 <= n <= |selection| && ValuesAt(t, selection[..n]).Err?
    ensures ValuesAt(t, selection) == ValuesAt(t, selection[..n])
    decreases |selection| - n
  {
    if n < |selection| {
      assert selection[..n + 1][..n] == selection[..n];
      ValuesPrefixFails(t, selection, n + 1);
    } else {
      assert selection[..n] == selection;
    }
  }
}
