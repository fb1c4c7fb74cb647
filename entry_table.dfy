/**
 * The paged entry table: a list of records pulled from an iterator in
 * batches, a list of columns, and the controller that keeps one
 * `state.<key>` column per key of the records' dict states as rows come
 * and go.
 */
module EntryTable {
  import opened Values
  import opened Columns
  import opened Seqs
  import Utils

  const DEFAULT_BATCH_SIZE := 128

  datatype Orientation = Horizontal | Vertical
  datatype SortOrder = Ascending | Descending

  /** The payload of `sort_requested`: the dotted path of the column and the order. */
  datatype SortRequest = SortRequest(path: string, order: SortOrder)

  // ---------------------------------------------------------------------------
  // Fetching in batches

  /** How many records one fetch takes from what the source has left. */
  function Taken(rest: seq<Record>, batchSize: int): (k: nat)
    ensures k <= |rest|
    ensures batchSize > 0 ==> k == if |rest| < batchSize then |rest| else batchSize
    ensures batchSize <= 0 ==> k == 0
  {
    if batchSize <= 0 then 0 else if |rest| < batchSize then |rest| else batchSize
  }

  /**
   * One `fetchMore` on the records and the source's remaining items: at
   * most `batchSize` records are appended in source order, and the source
   * is dropped when it ran out before the batch was full.
   */
  function Fetch(records: seq<Record>, source: Option<seq<Record>>, batchSize: int)
    : (r: (seq<Record>, Option<seq<Record>>))
    ensures source.None? ==> r == (records, None)
    ensures source.Some? ==>
              var k := Taken(source.value, batchSize);
              r.0 == records + source.value[..k] &&
              (r.1.None? <==> |source.value| < batchSize) &&
              (r.1.Some? ==> r.1.value == source.value[k..])
  {
    match source
    case None => (records, None)
    case Some(rest) =>
      var k := Taken(rest, batchSize);
      (records + rest[..k], if |rest| < batchSize then None else Some(rest[k..]))
  }

  /** `k` fetches in a row. */
  function FetchTimes(records: seq<Record>, source: Option<seq<Record>>, batchSize: int, k: nat)
    : (seq<Record>, Option<seq<Record>>)
    decreases k
  {
    if k == 0 then (records, source)
    else
      var next := Fetch(records, source, batchSize);
      FetchTimes(next.0, next.1, batchSize, k - 1)
  }

  lemma {:induction false} FetchTimesFrom(s: seq<Record>, n: nat, b: nat, k: nat)
    requires b > 0 && n + k * b <= |s|
    ensures FetchTimes(s[..n], Some(s[n..]), b, k) == (s[..n + k * b], Some(s[n + k * b..]))
    decreases k
  {
    if k > 0 {
      assert k * b == b + (k - 1) * b;
      var next := Fetch(s[..n], Some(s[n..]), b);
      assert s[n..][..b] == s[n..n + b];
      assert s[..n] + s[n..n + b] == s[..n + b];
      assert s[n..][b..] == s[n + b..];
      assert next == (s[..n + b], Some(s[n + b..]));
      FetchTimesFrom(s, n + b, b, k - 1);
    }
  }

  /**
   * Starting from no rows and a source of `N` records with a positive batch
   * size `b`, and `k` the number of full batches (`k*b <= N < k*b + b`): the
   * table holds `b*j` rows and can still fetch before each fetch `j <= k`,
   * and fetch number `k + 1` brings the last records and drops the source,
   * leaving all `N` rows in source order.
   */
  lemma FetchUntilExhausted(s: seq<Record>, b: nat, k: nat)
    requires b > 0 && k * b <= |s| < k * b + b
    ensures forall j: nat :: j <= k ==>
              FetchTimes([], Some(s), b, j) == (s[..j * b], Some(s[j * b..]))
    ensures FetchTimes([], Some(s), b, k + 1) == (s, None)
  {
    assert s[..0] == [] && s[0..] == s;
    forall j: nat | j <= k
      ensures FetchTimes([], Some(s), b, j) == (s[..j * b], Some(s[j * b..]))
    {
      assert j * b <= k * b;
      FetchTimesFrom(s, 0, b, j);
    }
    FetchTimesFrom(s, 0, b, k);
    FetchTimesSplit([], Some(s), b, k, 1);
    LastFetch(s, k * b, b);
  }

  /** From `n` rows, with fewer than `b` records left, one fetch takes them all and drops the source. */
  lemma LastFetch(s: seq<Record>, n: nat, b: nat)
    requires n <= |s| < n + b
    ensures FetchTimes(s[..n], Some(s[n..]), b, 1) == (s, None)
  {
    var rest := s[n..];
    assert rest[..|rest|] == rest;
    assert s[..n] + rest == s;
  }

  lemma {:induction false} FetchTimesSplit(records: seq<Record>, source: Option<seq<Record>>, b: int, k: nat, m: nat)
    ensures FetchTimes(records, source, b, k + m) ==
            FetchTimes(FetchTimes(records, source, b, k).0, FetchTimes(records, source, b, k).1, b, m)
    decreases k
  {
    if k > 0 {
      var next := Fetch(records, source, b);
      FetchTimesSplit(next.0, next.1, b, k - 1, m);
    }
  }

  // ---------------------------------------------------------------------------
  // Column keys of dict states

  /** The union of the keys of the records' dict states (other states add none). */
  function DictKeys(rs: seq<Record>): set<string> {
    if rs == [] then {} else DictKeys(rs[..|rs| - 1]) + StateKeys(rs[|rs| - 1])
  }

  lemma {:induction false} DictKeysMember(rs: seq<Record>, k: string)
    ensures k in DictKeys(rs) <==> exists i :: 0 <= i < |rs| && k in StateKeys(rs[i])
  {
    if rs != [] {
      var init := rs[..|rs| - 1];
      DictKeysMember(init, k);
      if k in DictKeys(init) {
        var i :| 0 <= i < |init| && k in StateKeys(init[i]);
        assert rs[i] == init[i];
      }
      if exists i :: 0 <= i < |rs| && k in StateKeys(rs[i]) {
        var i :| 0 <= i < |rs| && k in StateKeys(rs[i]);
        if i < |rs| - 1 { assert init[i] == rs[i]; }
      }
    }
  }

  lemma {:induction false} DictKeysAppend(a: seq<Record>, b: seq<Record>)
    ensures DictKeys(a + b) == DictKeys(a) + DictKeys(b)
    decreases |b|
  {
    if b == [] {
      assert a + b == a;
    } else {
      var ab := a + b;
      assert ab[..|ab| - 1] == a + b[..|b| - 1];
      assert ab[|ab| - 1] == b[|b| - 1];
      DictKeysAppend(a, b[..|b| - 1]);
    }
  }

  /** One more row adds its state keys. */
  lemma DictKeysSnoc(rs: seq<Record>, j: nat)
    requires j < |rs|
    ensures DictKeys(rs[..j + 1]) == DictKeys(rs[..j]) + StateKeys(rs[j])
  {
    assert rs[..j + 1][..j] == rs[..j];
  }

  /** A prefix of the rows has no key the rows lack. */
  lemma DictKeysPrefix(rs: seq<Record>, j: nat)
    requires j <= |rs|
    ensures DictKeys(rs[..j]) <= DictKeys(rs)
  {
    DictKeysAppend(rs[..j], rs[j..]);
    assert rs[..j] + rs[j..] == rs;
  }

  /** A data column on a path `('state', key)` with a string key. */
  predicate IsStatePath(c: Column) {
    c.IsDataColumn() && |c.Path()| == 2 && c.Path()[0] == Key(STATE) && c.Path()[1].Key?
  }

  /** The key of a state column (and the empty string for any other column). */
  function StateKeyOf(c: Column): string {
    if IsStatePath(c) then c.Path()[1].name else ""
  }

  /** The column `DataColumn('state.<key>', ('state', key))` the controller creates for a key. */
  predicate StateColumnFor(c: Column) {
    IsStatePath(c) && ColumnForKey(c, StateKeyOf(c))
  }

  /** `c` is the column `DataColumn('state.' + k, ('state', k))`. */
  predicate ColumnForKey(c: Column, k: string) {
    c.kind == ColumnKind.Data([Key(STATE), Key(k)]) && c.name == STATE + "." + k
  }

  /** A column made for each key of `ks`, in order, has that key. */
  lemma ColumnsForKeys(added: seq<Column>, ks: seq<string>)
    requires |added| == |ks|
    requires forall i :: 0 <= i < |added| ==> ColumnForKey(added[i], ks[i])
    ensures forall i :: 0 <= i < |added| ==> StateColumnFor(added[i]) && StateKeyOf(added[i]) == ks[i]
  {
    forall i | 0 <= i < |added| ensures StateColumnFor(added[i]) && StateKeyOf(added[i]) == ks[i] {
      assert added[i].Path() == [Key(STATE), Key(ks[i])];
    }
  }

  /** The keys that already have a state column. */
  function StateColumnKeys(cols: seq<Column>): set<string> {
    if cols == [] then {}
    else
      var last := cols[|cols| - 1];
      StateColumnKeys(cols[..|cols| - 1]) + (if IsStatePath(last) then {StateKeyOf(last)} else {})
  }

  lemma {:induction false} StateColumnKeysMember(cols: seq<Column>, k: string)
    ensures k in StateColumnKeys(cols) <==>
              exists i :: 0 <= i < |cols| && IsStatePath(cols[i]) && StateKeyOf(cols[i]) == k
  {
    if cols != [] {
      var init := cols[..|cols| - 1];
      StateColumnKeysMember(init, k);
      if exists i :: 0 <= i < |init| && IsStatePath(init[i]) && StateKeyOf(init[i]) == k {
        var i :| 0 <= i < |init| && IsStatePath(init[i]) && StateKeyOf(init[i]) == k;
        assert cols[i] == init[i];
      }
      if exists i :: 0 <= i < |cols| && IsStatePath(cols[i]) && StateKeyOf(cols[i]) == k {
        var i :| 0 <= i < |cols| && IsStatePath(cols[i]) && StateKeyOf(cols[i]) == k;
        if i < |cols| - 1 { assert init[i] == cols[i]; }
      }
    }
  }

  /** No key has two state columns. */
  ghost predicate UniqueStateColumns(cols: seq<Column>) {
    forall i, j :: 0 <= i < j < |cols| && IsStatePath(cols[i]) && IsStatePath(cols[j]) ==>
      StateKeyOf(cols[i]) != StateKeyOf(cols[j])
  }

  /** A state column whose key is among `gone`. */
  predicate Doomed(c: Column, gone: set<string>) {
    IsStatePath(c) && StateKeyOf(c) in gone
  }

  function DoomedBy(gone: set<string>): Column -> bool {
    (c: Column) => Doomed(c, gone)
  }

  /** The columns without the doomed ones, in order. */
  function DropDoomed(cols: seq<Column>, gone: set<string>): seq<Column> {
    if cols == [] then []
    else if Doomed(cols[0], gone) then DropDoomed(cols[1..], gone)
    else [cols[0]] + DropDoomed(cols[1..], gone)
  }

  /** Dropping the doomed columns is filtering them out. */
  lemma {:induction false} DropDoomedFiltersOut(cols: seq<Column>, gone: set<string>)
    ensures DropDoomed(cols, gone) == FilterOut(cols, DoomedBy(gone))
  {
    if cols != [] {
      DropDoomedFiltersOut(cols[1..], gone);
    }
  }

  /** Nothing is dropped when no key is gone. */
  lemma {:induction false} DropNothing(cols: seq<Column>)
    ensures DropDoomed(cols, {}) == cols
  {
    if cols != [] {
      DropNothing(cols[1..]);
      assert cols == [cols[0]] + cols[1..];
    }
  }

  /** `after` holds only columns of `before`, and one state column per key when `before` does. */
  ghost predicate Narrows(before: seq<Column>, after: seq<Column>) {
    (forall c :: c in after ==> c in before) &&
    (UniqueStateColumns(before) ==> UniqueStateColumns(after))
  }

  /** Dropping columns keeps the rest, and keeps one state column per key. */
  lemma {:induction false} DropDoomedKeepsUnique(cols: seq<Column>, gone: set<string>)
    ensures forall c :: c in DropDoomed(cols, gone) ==> c in cols
    ensures UniqueStateColumns(cols) ==> UniqueStateColumns(DropDoomed(cols, gone))
  {
    if cols != [] {
      var c, rest := cols[0], cols[1..];
      DropDoomedKeepsUnique(rest, gone);
      assert forall x :: x in rest ==> x in cols;
      if UniqueStateColumns(cols) && !Doomed(c, gone) {
        var d := DropDoomed(cols, gone);
        assert d == [c] + DropDoomed(rest, gone);
        forall i, j | 0 <= i < j < |d| && IsStatePath(d[i]) && IsStatePath(d[j])
          ensures StateKeyOf(d[i]) != StateKeyOf(d[j])
        {
          if i == 0 {
            assert d[j] in rest;
            var k :| 0 <= k < |rest| && rest[k] == d[j];
            assert cols[k + 1] == d[j] && cols[0] == c;
          } else {
            assert d[i] == DropDoomed(rest, gone)[i - 1] && d[j] == DropDoomed(rest, gone)[j - 1];
          }
        }
      }
    }
  }

  /**
   * `after` is `before` with state columns appended, one for each of some
   * keys of `keys` that `before` does not show yet.
   */
  ghost predicate ExtendsWithKeys(before: seq<Column>, after: seq<Column>, keys: set<string>) {
    |before| <= |after| && after[..|before|] == before &&
    forall i :: |before| <= i < |after| ==>
      StateColumnFor(after[i]) && StateKeyOf(after[i]) in keys - StateColumnKeys(before)
  }

  /** Appending state columns for uncovered keys extends the columns with those keys. */
  lemma AppendExtends(cols: seq<Column>, added: seq<Column>, keys: set<string>)
    requires forall i :: 0 <= i < |added| ==> StateColumnFor(added[i])
    requires forall i :: 0 <= i < |added| ==> StateKeyOf(added[i]) in keys - StateColumnKeys(cols)
    ensures ExtendsWithKeys(cols, cols + added, keys)
  {
    var after := cols + added;
    assert after[..|cols|] == cols;
    assert forall i :: |cols| <= i < |after| ==> after[i] == added[i - |cols|];
  }

  // ---------------------------------------------------------------------------
  // The table

  /** The names of a path's dict-key steps, with an empty name for an index step. */
  function KeyNames(path: seq<PathKey>): (names: seq<string>)
    ensures |names| == |path|
    ensures forall i :: 0 <= i < |path| && path[i].Key? ==> names[i] == path[i].name
  {
    seq(|path|, i requires 0 <= i < |path| => if path[i].Key? then path[i].name else "")
  }

  class EntryTableModel {
    var historian: Option<Historian>
    var records: seq<Record>
    var columns: seq<Column>
    /** The items the source iterator has not yielded yet; `None` once it is exhausted or unset. */
    var source: Option<seq<Record>>
    var batchSize: int
    const std: StandardColumns

    /** A new table: no rows, no source, the four default columns. */
    constructor(std: StandardColumns)
      ensures this.std == std && historian.None? && records == [] && source.None?
      ensures columns == std.Defaults() && batchSize == DEFAULT_BATCH_SIZE
    {
      this.std := std;
      historian := None;
      records := [];
      columns := [];
      source := None;
      batchSize := DEFAULT_BATCH_SIZE;
      new;
      AppendColumns(std.Defaults());
    }

    function RowCount(): nat
      reads this
    {
      |records|
    }

    function CanFetchMore(): bool
      reads this
    {
      source.Some?
    }

    /** `get_record(row)`: the row's record, or `None` outside `[0, rowCount)`. */
    function GetRecord(row: int): (r: Option<Record>)
      reads this
      ensures r.None? <==> row < 0 || row >= |records|
      ensures r.Some? ==> r.value == records[row]
    {
      if row < 0 || row >= |records| then None else Some(records[row])
    }

    /** `headerData`: a column's name across the top, a row's number down the side. */
    function HeaderData(section: int, orientation: Orientation, role: Role): (r: Option<string>)
      reads this
      ensures r.Some? <==> role == DisplayRole && 0 <= section &&
                           (if orientation == Horizontal then section < |columns| else section < |records|)
      ensures r.Some? && orientation == Horizontal ==> r.value == columns[section].name
      ensures r.Some? && orientation == Vertical ==> section >= 0 && r.value == NatToString(section)
    {
      if role != DisplayRole then None
      else if orientation == Horizontal then
        if section < 0 || section >= |columns| then None else Some(columns[section].name)
      else
        if section < 0 || section >= |records| then None else Some(NatToString(section))
    }

    /** `data(index, role)`: nothing outside the table, else what the column shows for the row. */
    function Data(row: int, column: int, role: Role): (r: Result<Cell>)
      reads this
      ensures !(0 <= row < |records| && 0 <= column < |columns|) ==> r == Ok(NoCell)
      ensures 0 <= row < |records| && 0 <= column < |columns| ==>
                r == columns[column].CellData(records[row], role, historian)
    {
      if row >= |records| || row < 0 then Ok(NoCell)
      else if column >= |columns| || column < 0 then Ok(NoCell)
      else columns[column].CellData(records[row], role, historian)
    }

    /**
     * The dotted path `sort` requests for a data column: `'.'.join` of the
     * steps, each of which must be a string; a non-string step raises
     * TypeError.
     */
    static function JoinedPath(path: seq<PathKey>): (r: Result<string>)
      ensures r.Ok? <==> forall i :: 0 <= i < |path| ==> path[i].Key?
      ensures r.Ok? ==> r.value == Utils.Join(KeyNames(path), ".")
      ensures r.Err? ==> r.error == TypeError
    {
      if path == [] then Ok("")
      else if !path[0].Key? then Err(TypeError)
      else if |path| == 1 then Ok(path[0].name)
      else
        match JoinedPath(path[1..])
        case Err(e) => Err(e)
        case Ok(rest) =>
          assert KeyNames(path)[1..] == KeyNames(path[1..]);
          Ok(path[0].name + "." + rest)
    }

    /**
     * `sort(column, order)` as written: the guard lets `column == columnCount`
     * through, and the lookup then raises IndexError.
     */
    function SortAsWritten(column: int, order: SortOrder): (r: Result<Option<SortRequest>>)
      reads this
      ensures column < 0 || column > |columns| ==> r == Ok(None)
      ensures r.Err? ==> (r.error == IndexError <==> column == |columns|)
      ensures r.Err? ==> r.error in {IndexError, TypeError}
    {
      if column < 0 || column > |columns| then Ok(None)
      else if column == |columns| then Err(IndexError)
      else
        var col := columns[column];
        if !col.IsDataColumn() then Ok(None)
        else
          match JoinedPath(col.Path())
          case Err(e) => Err(e)
          case Ok(p) => Ok(Some(SortRequest(p, order)))
    }

    /**
     * `sort(column, order)` with the bound the guard means: a request for a
     * data column inside the table, nothing for any other column index.
     */
    function Sort(column: int, order: SortOrder): (r: Result<Option<SortRequest>>)
      reads this
      ensures !(0 <= column < |columns|) ==> r == Ok(None)
      ensures 0 <= column < |columns| && !columns[column].IsDataColumn() ==> r == Ok(None)
      ensures r.Ok? && r.value.Some? ==>
                0 <= column < |columns| && columns[column].IsDataColumn() && r.value.value.order == order &&
                Ok(r.value.value.path) == JoinedPath(columns[column].Path())
      ensures r.Err? ==> r.error == TypeError
    {
      if column < 0 || column >= |columns| then Ok(None)
      else
        var col := columns[column];
        if !col.IsDataColumn() then Ok(None)
        else
          match JoinedPath(col.Path())
          case Err(e) => Err(e)
          case Ok(p) => Ok(Some(SortRequest(p, order)))
    }

    /** `fetchMore`: one batch from the source, appended after the existing rows. */
    method FetchMore()
      modifies this
      ensures (records, source) == Fetch(old(records), old(source), batchSize)
      ensures historian == old(historian) && columns == old(columns) && batchSize == old(batchSize)
    {
      if source.None? {
        return;
      }
      var src := source.value;
      var rest := src;
      var newRecords: seq<Record> := [];
      var i := 0;
      var exhausted := false;
      while i < batchSize && !exhausted
        invariant 0 <= i <= |src|
        invariant batchSize > 0 ==> i <= batchSize
        invariant batchSize <= 0 ==> i == 0
        invariant newRecords == src[..i] && rest == src[i..]
        invariant exhausted ==> i == |src| && i < batchSize
        decreases batchSize - i, if exhausted then 0 else 1
      {
        if rest == [] {
          exhausted := true;
        } else {
          newRecords := newRecords + [rest[0]];
          rest := rest[1..];
          i := i + 1;
        }
      }
      assert i == Taken(src, batchSize);
      if exhausted {
        source := None;
      } else {
        source := Some(rest);
      }
      if newRecords != [] {
        records := records + newRecords;
      } else {
        assert records == records + newRecords;
      }
    }

    /** `set_source`: drop every row, install the source and historian, and fetch once. */
    method SetSource(src: Option<seq<Record>>, hist: Option<Historian>)
      modifies this
      ensures (records, source) == (if src.None? then ([], None) else Fetch([], src, batchSize))
      ensures historian == hist && columns == old(columns) && batchSize == old(batchSize)
    {
      ResetSource(src, hist);
      if src.Some? {
        FetchMore();
      }
    }

    /** The first part of `set_source`: the rows go and the new source and historian are in place. */
    method ResetSource(src: Option<seq<Record>>, hist: Option<Historian>)
      modifies this
      ensures records == [] && source == src && historian == hist
      ensures columns == old(columns) && batchSize == old(batchSize)
    {
      records := [];
      source := src;
      historian := hist;
    }

    /** `append_columns(*cs)`: the columns go at the end, in argument order. */
    method AppendColumns(cs: seq<Column>)
      modifies this
      ensures columns == old(columns) + cs
      ensures records == old(records) && source == old(source)
      ensures historian == old(historian) && batchSize == old(batchSize)
    {
      columns := columns + cs;
    }

    /**
     * `remove_columns(*cs)`: the first occurrence of each column in turn is
     * taken out; a column not present raises ValueError (`ok` false) with
     * the earlier removals kept.
     */
    method RemoveColumns(cs: seq<Column>) returns (ok: bool)
      modifies this
      ensures (columns, ok) == RemoveEach(old(columns), cs)
      ensures records == old(records) && source == old(source)
      ensures historian == old(historian) && batchSize == old(batchSize)
    {
      var cols := columns;
      ok := true;
      for i := 0 to |cs|
        invariant ok && RemoveEach(old(columns), cs) == RemoveEach(cols, cs[i..])
        modifies {}
      {
        assert cs[i..][0] == cs[i] && cs[i..][1..] == cs[i + 1..];
        RemoveEachUnfold(cols, cs[i..]);
        if cs[i] !in cols {
          ok := false;
          break;
        }
        var idx := IndexOf(cols, cs[i]);
        cols := cols[..idx] + cols[idx + 1..];
      }
      assert ok ==> cs[|cs|..] == [];
      columns := cols;
    }

    /** `clear_columns`. */
    method ClearColumns()
      modifies this
      ensures columns == []
      ensures records == old(records) && source == old(source)
      ensures historian == old(historian) && batchSize == old(batchSize)
    {
      columns := [];
    }

    /** `set_columns(cs)`: clear, then append. */
    method SetColumns(cs: seq<Column>)
      modifies this
      ensures columns == cs
      ensures records == old(records) && source == old(source)
      ensures historian == old(historian) && batchSize == old(batchSize)
    {
      ClearColumns();
      AppendColumns(cs);
    }

    /**
     * `remove_records(index, count)` as written: after the guard, it deletes
     * at `index, index + 1, ...` of the shrinking list, so it skips every
     * other record and can run off the end (IndexError).
     */
    method RemoveRecordsAsWritten(index: int, count: int) returns (r: Result<bool>)
      modifies this
      ensures index < 0 || index >= |old(records)| || count <= 0 ==>
                r == Ok(false) && records == old(records)
      ensures 0 <= index < |old(records)| && count > 0 ==>
                var end := if |old(records)| < index + count then |old(records)| else index + count;
                var outcome := DeleteEach(old(records), index, end);
                records == outcome.0 && (r == Ok(true) <==> outcome.1) && (r.Err? ==> r.error == IndexError)
      ensures columns == old(columns) && source == old(source)
      ensures historian == old(historian) && batchSize == old(batchSize)
    {
      if index < 0 || index >= |records| || count <= 0 {
        return Ok(false);
      }
      var end := if |records| < index + count then |records| else index + count;
      for i := index to end
        invariant DeleteEach(old(records), index, end) == DeleteEach(records, i, end)
        invariant columns == old(columns) && source == old(source)
        invariant historian == old(historian) && batchSize == old(batchSize)
      {
        if i >= |records| {
          return Err(IndexError);
        }
        records := records[..i] + records[i + 1..];
      }
      return Ok(true);
    }

    /**
     * `remove_records(index, count)` as documented: removes the `count`
     * records from `index` on (fewer at the end of the table).
     */
    method RemoveRecords(index: int, count: int) returns (removed: bool)
      modifies this
      ensures removed <==> 0 <= index < |old(records)| && count > 0
      ensures !removed ==> records == old(records)
      ensures removed ==>
                var end := if |old(records)| < index + count then |old(records)| else index + count;
                records == old(records)[..index] + old(records)[end..]
      ensures columns == old(columns) && source == old(source)
      ensures historian == old(historian) && batchSize == old(batchSize)
    {
      if index < 0 || index >= |records| || count <= 0 {
        return false;
      }
      var end := if |records| < index + count then |records| else index + count;
      records := records[..index] + records[end..];
      return true;
    }

    /** `remove_record(index)`: exactly the index-th record goes, the rest keep their order. */
    method RemoveRecord(index: int) returns (removed: bool)
      modifies this
      ensures removed <==> 0 <= index < |old(records)|
      ensures removed ==> records == old(records)[..index] + old(records)[index + 1..]
      ensures !removed ==> records == old(records)
      ensures columns == old(columns) && source == old(source)
      ensures historian == old(historian) && batchSize == old(batchSize)
    {
      removed := RemoveRecords(index, 1);
    }

    /** `reset`: no rows, the default columns, no source; the historian stays. */
    method Reset()
      modifies this
      ensures records == [] && columns == std.Defaults() && source.None?
      ensures historian == old(historian) && batchSize == old(batchSize)
    {
      records := [];
      columns := std.Defaults();
      source := None;
    }
  }

  /** The as-written deletions skip records: removing two from the front of four keeps the 2nd and 4th. */
  lemma RemoveRecordsSkips()
    ensures DeleteEach([10, 20, 30, 40], 0, 2) == ([20, 40], true)
    ensures DeleteEach([10, 20, 30], 1, 3) == ([10, 30], false)
  {
    assert [10, 20, 30, 40][..0] + [10, 20, 30, 40][1..] == [20, 30, 40];
    assert [20, 30, 40][..1] + [20, 30, 40][2..] == [20, 40];
    assert [10, 20, 30][..1] + [10, 20, 30][2..] == [10, 30];
  }

  /** With a count of one the as-written loop and the range removal agree. */
  lemma RemoveOneAgrees(s: seq<Record>, i: nat)
    requires i < |s|
    ensures DeleteEach(s, i, i + 1) == (s[..i] + s[i + 1..], true)
  {
    DeleteOne(s, i);
  }

  /** As written, sorting on the column one past the end raises IndexError. */
  lemma SortPastEndRaises(t: EntryTableModel, order: SortOrder)
    ensures t.SortAsWritten(|t.columns|, order) == Err(IndexError)
    ensures t.Sort(|t.columns|, order) == Ok(None)
  {
  }

  /** Inside the table the two sorts agree. */
  lemma SortAgreesInside(t: EntryTableModel, column: int, order: SortOrder)
    requires column != |t.columns|
    ensures t.SortAsWritten(column, order) == t.Sort(column, order)
  {
  }

  // ---------------------------------------------------------------------------
  // The controller

  lemma {:induction false} StateColumnKeysAppend(a: seq<Column>, b: seq<Column>)
    ensures StateColumnKeys(a + b) == StateColumnKeys(a) + StateColumnKeys(b)
    decreases |b|
  {
    if b == [] {
      assert a + b == a;
    } else {
      var ab := a + b;
      assert ab[..|ab| - 1] == a + b[..|b| - 1];
      assert ab[|ab| - 1] == b[|b| - 1];
      StateColumnKeysAppend(a, b[..|b| - 1]);
    }
  }

  /** Appending state columns for fresh, distinct keys keeps one column per key. */
  lemma AppendKeepsUnique(cols: seq<Column>, added: seq<Column>)
    requires UniqueStateColumns(cols)
    requires forall i :: 0 <= i < |added| ==> IsStatePath(added[i]) && StateKeyOf(added[i]) !in StateColumnKeys(cols)
    requires forall i, j :: 0 <= i < j < |added| ==> StateKeyOf(added[i]) != StateKeyOf(added[j])
    ensures UniqueStateColumns(cols + added)
  {
    var all := cols + added;
    forall i, j | 0 <= i < j < |all| && IsStatePath(all[i]) && IsStatePath(all[j])
      ensures StateKeyOf(all[i]) != StateKeyOf(all[j])
    {
      if j >= |cols| && i < |cols| {
        StateColumnKeysMember(cols, StateKeyOf(all[i]));
        assert all[j] == added[j - |cols|];
      } else if i >= |cols| {
        assert all[i] == added[i - |cols|] && all[j] == added[j - |cols|];
      }
    }
  }

  /**
   * One state column per key not yet covered, keys in the order `ks`
   * without repeats: the columns' keys are exactly those keys, each once.
   */
  lemma NewKeysColumns(cols: seq<Column>, added: seq<Column>, ks: seq<string>, keys: set<string>)
    requires |added| == |ks|
    requires forall i :: 0 <= i < |added| ==> StateColumnFor(added[i]) && StateKeyOf(added[i]) == ks[i]
    requires forall k :: k in ks <==> k in keys - StateColumnKeys(cols)
    requires forall i, j :: 0 <= i < j < |ks| ==> ks[i] != ks[j]
    ensures forall i, j :: 0 <= i < j < |added| ==> StateKeyOf(added[i]) != StateKeyOf(added[j])
    ensures forall i :: 0 <= i < |added| ==> StateKeyOf(added[i]) in keys - StateColumnKeys(cols)
    ensures forall k :: k in keys - StateColumnKeys(cols) ==> exists i :: 0 <= i < |added| && StateKeyOf(added[i]) == k
  {
    forall k | k in keys - StateColumnKeys(cols) ensures exists i :: 0 <= i < |added| && StateKeyOf(added[i]) == k {
      var i :| 0 <= i < |ks| && ks[i] == k;
      assert StateKeyOf(added[i]) == k;
    }
    forall i | 0 <= i < |added| ensures StateKeyOf(added[i]) in keys - StateColumnKeys(cols) {
      assert ks[i] in ks;
    }
  }

  /** Appending those columns covers every key and keeps one column per key. */
  lemma AppendedStateColumns(cols: seq<Column>, added: seq<Column>, keys: set<string>)
    requires forall i :: 0 <= i < |added| ==> IsStatePath(added[i]) && StateKeyOf(added[i]) in keys - StateColumnKeys(cols)
    requires forall k :: k in keys - StateColumnKeys(cols) ==> exists i :: 0 <= i < |added| && StateKeyOf(added[i]) == k
    requires forall i, j :: 0 <= i < j < |added| ==> StateKeyOf(added[i]) != StateKeyOf(added[j])
    ensures keys <= StateColumnKeys(cols + added)
    ensures UniqueStateColumns(cols) ==> UniqueStateColumns(cols + added)
  {
    StateColumnKeysAppend(cols, added);
    forall k | k in keys && k !in StateColumnKeys(cols) ensures k in StateColumnKeys(added) {
      assert k in keys - StateColumnKeys(cols);
      var i :| 0 <= i < |added| && StateKeyOf(added[i]) == k;
      StateColumnKeysMember(added, k);
    }
    if UniqueStateColumns(cols) {
      AppendKeepsUnique(cols, added);
    }
  }

  /** The rows of the removed range and the rows that stay. */
  function RemovedRows(rs: seq<Record>, first: int, last: int): seq<Record>
    requires 0 <= first <= last < |rs|
  {
    rs[first..last + 1]
  }

  function RemainingRows(rs: seq<Record>, first: int, last: int): seq<Record>
    requires 0 <= first <= last < |rs|
  {
    rs[..first] + rs[last + 1..]
  }

  /** The state keys only the removed rows have. */
  function Gone(rs: seq<Record>, first: int, last: int): set<string>
    requires 0 <= first <= last < |rs|
  {
    DictKeys(RemovedRows(rs, first, last)) - DictKeys(RemainingRows(rs, first, last))
  }

  /**
   * The columns after the removal handler ran for rows `first..last` of
   * `rs`: the state columns of the keys only those rows have are dropped
   * when it completed (`handled`); when it did not, some remaining row's
   * state is not a dict and the columns are as they were. It always
   * completes when every remaining state is a dict.
   */
  ghost predicate RemovalHandled(before: seq<Column>, rs: seq<Record>, first: int, last: int, handled: bool, after: seq<Column>)
    requires 0 <= first <= last < |rs|
  {
    var others := RemainingRows(rs, first, last);
    (handled ==> after == DropDoomed(before, Gone(rs, first, last))) &&
    (!handled ==> after == before && exists j :: 0 <= j < |others| && !others[j].state.Map?) &&
    ((forall j :: 0 <= j < |others| ==> others[j].state.Map?) ==> handled)
  }

  /** One more element of the scan: it is kept or filtered out. */
  lemma FilterStep<T>(s: seq<T>, n: nat, p: T -> bool)
    requires n < |s|
    ensures FilterOut(s[..n + 1], p) == FilterOut(s[..n], p) + (if p(s[n]) then [] else [s[n]])
  {
    assert s[..n + 1] == s[..n] + [s[n]];
    FilterOutAppend(s[..n], [s[n]], p);
  }

  /**
   * One step of the scan in `remove_matching_records`: the record at the
   * cursor is the next unscanned one; deleting it, or stepping past it,
   * re-establishes the scan's invariant one element further.
   */
  lemma ScanStep<T>(s: seq<T>, done: nat, p: T -> bool, current: seq<T>, idx: nat)
    requires done <= |s|
    requires current == FilterOut(s[..done], p) + s[done..]
    requires idx == |FilterOut(s[..done], p)| && idx < |current|
    ensures done < |s| && current[idx] == s[done]
    ensures p(s[done]) ==>
              current[..idx] + current[idx + 1..] == FilterOut(s[..done + 1], p) + s[done + 1..] &&
              idx == |FilterOut(s[..done + 1], p)|
    ensures !p(s[done]) ==>
              current == FilterOut(s[..done + 1], p) + s[done + 1..] &&
              idx + 1 == |FilterOut(s[..done + 1], p)|
  {
    var kept, rest := FilterOut(s[..done], p), s[done..];
    FilterStep(s, done, p);
    assert current[..idx] == kept && current[idx..] == rest;
    assert current[idx + 1..] == s[done + 1..] by {
      assert current[idx + 1..] == rest[1..];
    }
    if !p(s[done]) {
      assert rest == [s[done]] + s[done + 1..];
      Seqs.AppendAssoc(kept, [s[done]], s[done + 1..]);
    }
  }

  /** A selection group: one item on its own, or a tuple of several. */
  datatype Grouped<T> = Single(item: T) | Several(items: seq<T>)

  /** The value `get_selected` stores for a group, or nothing for an empty one. */
  function Group<T>(items: seq<T>): (g: Option<Grouped<T>>)
    ensures g.None? <==> items == []
    ensures |items| == 1 ==> g == Some(Single(items[0]))
    ensures |items| > 1 ==> g == Some(Several(items))
  {
    if items == [] then None else if |items| == 1 then Some(Single(items[0])) else Some(Several(items))
  }

  /** The 'Data Record(s)' and 'Values(s)' groups of the selection. */
  datatype Selected = Selected(dataRecords: Option<Grouped<Option<Record>>>, values: Option<Grouped<Cell>>)

  /** The distinct rows of the selected cells, ascending. */
  function SelectedRows(selection: seq<(int, int)>): (rows: seq<int>)
    ensures Increasing(rows)
    ensures forall y :: y in rows <==> exists i :: 0 <= i < |selection| && selection[i].0 == y
  {
    var all := seq(|selection|, i requires 0 <= i < |selection| => selection[i].0);
    assert forall i :: 0 <= i < |selection| ==> all[i] == selection[i].0;
    SortedSet(all)
  }

  class EntryTableController {
    const table: EntryTableModel

    constructor(table: EntryTableModel)
      ensures this.table == table
    {
      this.table := table;
    }

    /**
     * `_handle_rows_inserted(first, last)`: every key of a dict state among
     * the inserted rows that has no state column yet gets one new
     * `DataColumn('state.<key>', ('state', key))`, appended at the end.
     */
    method HandleRowsInserted(first: int, last: int) returns (added: seq<Column>)
      requires 0 <= first <= last < |table.records|
      modifies table
      ensures table.columns == old(table.columns) + added
      ensures table.records == old(table.records) && table.source == old(table.source)
      ensures table.historian == old(table.historian) && table.batchSize == old(table.batchSize)
      ensures forall i :: 0 <= i < |added| ==> fresh(added[i])
      ensures forall i :: 0 <= i < |added| ==> StateColumnFor(added[i])
      ensures forall i, j :: 0 <= i < j < |added| ==> StateKeyOf(added[i]) != StateKeyOf(added[j])
      ensures var newKeys := DictKeys(table.records[first..last + 1]) - StateColumnKeys(old(table.columns));
              (forall i :: 0 <= i < |added| ==> StateKeyOf(added[i]) in newKeys) &&
              (forall k :: k in newKeys ==> exists i :: 0 <= i < |added| && StateKeyOf(added[i]) == k)
      ensures DictKeys(table.records[first..last + 1]) <= StateColumnKeys(table.columns)
      ensures UniqueStateColumns(old(table.columns)) ==> UniqueStateColumns(table.columns)
    {
      var inserted := CollectKeys(table.records, first, last + 1);
      var cols := table.columns;
      var keys := UncoveredKeys(inserted, cols);
      ghost var ks;
      added, ks := NewStateColumns(keys);
      ColumnsForKeys(added, ks);
      table.AppendColumns(added);
      NewKeysColumns(cols, added, ks, inserted);
      AppendedStateColumns(cols, added, inserted);
    }

    /** The loop over the rows `from..to - 1` that gathers the keys of their dict states. */
    static method CollectKeys(rs: seq<Record>, from: int, to: int) returns (keys: set<string>)
      requires 0 <= from <= to <= |rs|
      ensures keys == DictKeys(rs[from..to])
      ensures forall k :: k in keys <==> exists i :: from <= i < to && k in StateKeys(rs[i])
    {
      keys := {};
      for row := from to to
        invariant keys == DictKeys(rs[from..row])
      {
        assert rs[from..row + 1][..row - from] == rs[from..row];
        var record := rs[row];
        if record.state.Map? {
          keys := keys + record.state.entries.Keys;
        }
      }
      forall k ensures k in keys <==> exists i :: from <= i < to && k in StateKeys(rs[i]) {
        DictKeysMember(rs[from..to], k);
        if exists i :: from <= i < to && k in StateKeys(rs[i]) {
          var i :| from <= i < to && k in StateKeys(rs[i]);
          assert rs[from..to][i - from] == rs[i];
        }
      }
    }

    /** The loop over the columns that drops every key a state column already shows. */
    static method UncoveredKeys(keys: set<string>, cols: seq<Column>) returns (missing: set<string>)
      ensures missing == keys - StateColumnKeys(cols)
    {
      missing := keys;
      for i := 0 to |cols|
        invariant missing == keys - StateColumnKeys(cols[..i])
      {
        assert cols[..i + 1][..i] == cols[..i];
        if IsStatePath(cols[i]) {
          missing := missing - {StateKeyOf(cols[i])};
        }
      }
      assert cols[..|cols|] == cols;
    }

    /**
     * The loop that makes `DataColumn('state.' + key, ('state', key))` for
     * each new key, in whatever order the set yields them (`ks`).
     */
    static method NewStateColumns(keys: set<string>) returns (added: seq<Column>, ghost ks: seq<string>)
      ensures |ks| == |added| && forall k :: k in ks <==> k in keys
      ensures forall i, j :: 0 <= i < j < |ks| ==> ks[i] != ks[j]
      ensures forall i :: 0 <= i < |added| ==> fresh(added[i]) && ColumnForKey(added[i], ks[i])
    {
      var left := keys;
      added, ks := [], [];
      while left != {}
        invariant left <= keys && |ks| == |added|
        invariant forall k :: k in ks <==> k in keys && k !in left
        invariant forall i, j :: 0 <= i < j < |ks| ==> ks[i] != ks[j]
        invariant forall i :: 0 <= i < |added| ==> fresh(added[i]) && ColumnForKey(added[i], ks[i])
        decreases |left|
      {
        var k :| k in left;
        var c := new Column.Data(STATE + "." + k, [Key(STATE), Key(k)], DefaultFormatter, None);
        added, ks := added + [c], ks + [k];
        left := left - {k};
      }
    }

    /**
     * `_handle_rows_about_to_be_removed(first, last)`: drop the state columns
     * of the keys that only the leaving rows have. The remaining rows are
     * scanned in order until no candidate key is left; one whose state is
     * not a dict raises AttributeError (`ok` false), and the columns then
     * stay as they were.
     */
    method HandleRowsAboutToBeRemoved(first: int, last: int) returns (ok: bool)
      requires 0 <= first <= last < |table.records|
      modifies table
      ensures table.records == old(table.records) && table.source == old(table.source)
      ensures table.historian == old(table.historian) && table.batchSize == old(table.batchSize)
      ensures ok ==> table.columns == DropDoomed(old(table.columns), Gone(table.records, first, last))
      ensures !ok ==> table.columns == old(table.columns)
      ensures var others := RemainingRows(table.records, first, last);
              (!ok ==> exists j :: 0 <= j < |others| && !others[j].state.Map?) &&
              ((forall j :: 0 <= j < |others| ==> others[j].state.Map?) ==> ok)
    {
      var toRemove;
      toRemove, ok := GoneKeys(table.records, first, last);
      if !ok {
        return;
      }
      var doomed := Filter(table.columns, DoomedBy(toRemove));
      RemoveEachFiltered(table.columns, DoomedBy(toRemove));
      DropDoomedFiltersOut(table.columns, toRemove);
      var removedAll := table.RemoveColumns(doomed);
    }

    /**
     * The loops of `_handle_rows_about_to_be_removed` that find the keys only
     * the leaving rows have: the remaining rows are scanned until no key is
     * left, and a remaining row without a dict state raises on the way.
     */
    static method GoneKeys(rs: seq<Record>, first: int, last: int) returns (gone: set<string>, ok: bool)
      requires 0 <= first <= last < |rs|
      ensures ok ==> gone == Gone(rs, first, last)
      ensures var others := RemainingRows(rs, first, last);
              (!ok ==> exists j :: 0 <= j < |others| && !others[j].state.Map?) &&
              ((forall j :: 0 <= j < |others| ==> others[j].state.Map?) ==> ok)
    {
      gone := CollectKeys(rs, first, last + 1);
      ghost var removed := gone;
      var others := rs[..first] + rs[last + 1..];
      assert others == RemainingRows(rs, first, last);
      var j := 0;
      while j < |others|
        invariant 0 <= j <= |others|
        invariant gone == removed - DictKeys(others[..j])
        decreases |others| - j
      {
        if !others[j].state.Map? {
          return gone, false;
        }
        DictKeysSnoc(others, j);
        gone := gone - others[j].state.entries.Keys;
        j := j + 1;
        if gone == {} {
          break;
        }
      }
      DictKeysPrefix(others, j);
      assert j == |others| ==> others[..j] == others;
      assert removed == DictKeys(RemovedRows(rs, first, last));
      return gone, true;
    }

    /**
     * `fetchMore` with the controller listening: the new rows get their
     * state columns, appended after the old ones, one per key they bring
     * that no column shows yet.
     */
    method FetchMore()
      modifies table
      ensures (table.records, table.source) == Fetch(old(table.records), old(table.source), table.batchSize)
      ensures table.historian == old(table.historian) && table.batchSize == old(table.batchSize)
      ensures ExtendsWithKeys(old(table.columns), table.columns, DictKeys(table.records[|old(table.records)|..]))
      ensures DictKeys(table.records[|old(table.records)|..]) <= StateColumnKeys(table.columns)
      ensures UniqueStateColumns(old(table.columns)) ==> UniqueStateColumns(table.columns)
    {
      var n := |table.records|;
      var cols := table.columns;
      table.FetchMore();
      if |table.records| > n {
        var last := |table.records| - 1;
        ghost var rows := table.records[n..last + 1];
        assert rows == table.records[n..];
        var added := HandleRowsInserted(n, last);
        AppendExtends(cols, added, DictKeys(rows));
      } else {
        assert table.records[n..] == [];
        AppendExtends(cols, [], {});
        assert cols + [] == cols;
      }
    }

    /** The removal handler for every row at once: each key the rows have is gone. */
    method RemoveAllRows()
      modifies table
      ensures table.columns == DropDoomed(old(table.columns), DictKeys(old(table.records)))
      ensures table.records == old(table.records) && table.source == old(table.source)
      ensures table.historian == old(table.historian) && table.batchSize == old(table.batchSize)
    {
      if |table.records| > 0 {
        var n := |table.records|;
        assert RemainingRows(table.records, 0, n - 1) == [];
        assert RemovedRows(table.records, 0, n - 1) == table.records;
        var ok := HandleRowsAboutToBeRemoved(0, n - 1);
        assert ok;
        assert Gone(table.records, 0, n - 1) == DictKeys(table.records);
      } else {
        DropNothing(table.columns);
      }
    }

    /**
     * `set_source` with the controller listening: the leaving rows' state
     * columns go (every row leaves, so every key they have is gone), then
     * the first batch arrives with its own.
     */
    method SetSource(src: Option<seq<Record>>, hist: Option<Historian>)
      modifies table
      ensures (table.records, table.source) == (if src.None? then ([], None) else Fetch([], src, table.batchSize))
      ensures table.historian == hist && table.batchSize == old(table.batchSize)
      ensures ExtendsWithKeys(DropDoomed(old(table.columns), DictKeys(old(table.records))), table.columns, DictKeys(table.records))
      ensures DictKeys(table.records) <= StateColumnKeys(table.columns)
      ensures UniqueStateColumns(old(table.columns)) ==> UniqueStateColumns(table.columns)
    {
      ghost var base := DropDoomed(table.columns, DictKeys(table.records));
      DropDoomedKeepsUnique(table.columns, DictKeys(table.records));
      RemoveAllRows();
      table.ResetSource(src, hist);
      if src.Some? {
        FetchMore();
        assert table.records[0..] == table.records;
      } else {
        AppendExtends(base, [], DictKeys([]));
        assert base + [] == base;
      }
    }

    /**
     * `remove_record(index)` with the controller listening: the removal
     * handler runs before the row goes. When it completes (`handled`), the
     * state columns of the keys only that row had are dropped; when it
     * raises on a remaining row whose state is not a dict, Qt swallows the
     * exception and the columns stay as they were.
     */
    method RemoveRecord(index: int) returns (removed: bool, ghost handled: bool)
      modifies table
      ensures removed <==> 0 <= index < |old(table.records)|
      ensures removed ==> table.records == old(table.records)[..index] + old(table.records)[index + 1..]
      ensures !removed ==> table.records == old(table.records)
      ensures removed ==> RemovalHandled(old(table.columns), old(table.records), index, index, handled, table.columns)
      ensures !removed ==> table.columns == old(table.columns)
      ensures Narrows(old(table.columns), table.columns)
      ensures table.source == old(table.source)
      ensures table.historian == old(table.historian) && table.batchSize == old(table.batchSize)
    {
      handled := false;
      if 0 <= index < |table.records| {
        DropDoomedKeepsUnique(table.columns, Gone(table.records, index, index));
        handled := HandleRowsAboutToBeRemoved(index, index);
      }
      removed := table.RemoveRecord(index);
    }

    /**
     * The step of `remove_matching_records` that deletes the record at
     * `idx`: `remove_record` with the removal handler listening, seen only
     * through what it does to the records.
     */
    method RemoveMatch(idx: int)
      requires 0 <= idx < |table.records|
      modifies table
      ensures table.records == old(table.records)[..idx] + old(table.records)[idx + 1..]
      ensures table.source == old(table.source)
      ensures table.historian == old(table.historian) && table.batchSize == old(table.batchSize)
    {
      var removed, handled := RemoveRecord(idx);
    }

    /**
     * `remove_matching_records(filter)`: every record the filter accepts
     * goes, the others stay in their order, and the result says whether
     * anything went.
     */
    method RemoveMatchingRecords(filter: Record -> bool) returns (deleted: bool)
      modifies table
      ensures table.records == FilterOut(old(table.records), filter)
      ensures forall r :: r in table.records ==> !filter(r)
      ensures deleted <==> exists i :: 0 <= i < |old(table.records)| && filter(old(table.records)[i])
      ensures table.source == old(table.source)
      ensures table.historian == old(table.historian) && table.batchSize == old(table.batchSize)
    {
      ghost var r0 := table.records;
      ghost var done := 0;
      deleted := false;
      var idx := 0;
      while idx < |table.records|
        invariant 0 <= done <= |r0|
        invariant table.records == FilterOut(r0[..done], filter) + r0[done..]
        invariant idx == |FilterOut(r0[..done], filter)|
        invariant deleted <==> idx < done
        invariant table.source == old(table.source)
        invariant table.historian == old(table.historian) && table.batchSize == old(table.batchSize)
        decreases |table.records| - idx
      {
        var record := table.records[idx];
        ghost var next := FilterOut(r0[..done + 1], filter) + r0[done + 1..];
        ScanStep(r0, done, filter, table.records, idx);
        if filter(record) {
          RemoveMatch(idx);
          assert table.records == next;
          deleted := true;
        } else {
          assert table.records == next;
          idx := idx + 1;
        }
        done := done + 1;
      }
      assert |table.records| == idx + (|r0| - done);
      assert done == |r0| && r0[..done] == r0 && r0[done..] == [];
      FilterOutShorter(r0, filter);
    }

    /** The data-role values of the selected cells, in selection order; the first failure is the result. */
    function SelectedValues(selection: seq<(int, int)>): (r: Result<seq<Cell>>)
      reads table
      ensures r.Ok? ==> |r.value| == |selection|
      ensures r.Ok? ==> forall i :: 0 <= i < |selection| ==>
                          table.Data(selection[i].0, selection[i].1, DataRole) == Ok(r.value[i])
      ensures r.Err? ==> exists i :: 0 <= i < |selection| && table.Data(selection[i].0, selection[i].1, DataRole).Err?
    {
      if selection == [] then Ok([])
      else
        match table.Data(selection[0].0, selection[0].1, DataRole)
        case Err(e) => Err(e)
        case Ok(c) =>
          match SelectedValues(selection[1..])
          case Err(e) =>
            assert forall i :: 1 <= i < |selection| ==> selection[1..][i - 1] == selection[i];
            Err(e)
          case Ok(rest) =>
            assert forall i :: 1 <= i < |selection| ==> selection[1..][i - 1] == selection[i];
            Ok([c] + rest)
    }

    /**
     * `get_selected(selection)`: the records of the distinct selected rows in
     * ascending order and the data of every selected cell; a group of one is
     * stored as its item and an empty group is left out.
     */
    function GetSelected(selection: seq<(int, int)>): (r: Result<Selected>)
      reads table
      ensures r.Ok? ==>
                var rows := SelectedRows(selection);
                r.value.dataRecords == Group(seq(|rows|, i requires 0 <= i < |rows| reads table => table.GetRecord(rows[i])))
      ensures r.Ok? ==> (r.value.dataRecords.None? <==> selection == [])
      ensures r.Err? <==> SelectedValues(selection).Err?
      ensures r.Ok? ==> SelectedValues(selection).Ok? && r.value.values == Group(SelectedValues(selection).value)
    {
      var rows := SelectedRows(selection);
      assert selection != [] ==> selection[0].0 in rows;
      var records := seq(|rows|, i requires 0 <= i < |rows| reads table => table.GetRecord(rows[i]));
      match SelectedValues(selection)
      case Err(e) => Err(e)
      case Ok(values) => Ok(Selected(Group(records), Group(values)))
    }
  }
}
