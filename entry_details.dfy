/**
 * The details tree of a stored record: a tree of items, each with three
 * columns (key, type label, value), whose nested children are built lazily
 * the first time a view asks for them, cached, and whose raw data is dropped
 * once every child exists.
 */
module EntryDetails {
  import opened Values
  import Utils
  import opened Columns
  import opened EntryTable

  /** `utils.obj_dict`: the public fields of an object; `None` stands for the `except TypeError` fallbacks of its callers. */
  type ObjDict = Value -> Option<map<string, Value>>

  /** `COLUMN_HEADERS`. */
  const COLUMN_HEADERS: seq<Value> := [Str("Property"), Str("Type"), Str("Value")]

  /** The `max_length` every item string is formatted with. */
  const MAX_STRING := 300

  /** The strings an item shows: `pretty_format(datum, single_line=True, max_length=300)` per datum. */
  function ItemStrings(data: seq<Value>): (r: seq<string>)
    ensures |r| == |data|
    ensures forall i :: 0 <= i < |data| ==> '\n' !in r[i] || data[i].Type? || data[i].Time?
    ensures forall i :: 0 <= i < |data| && !data[i].Type? && !data[i].Time? ==> |r[i]| <= MAX_STRING
  {
    seq(|data|, i requires 0 <= i < |data| => Utils.PrettyFormat(data[i], true, Some(MAX_STRING)))
  }

  /** `len(data)` for data that has children (a list, a dict, a string). */
  function NestedCount(v: Value): nat {
    match v
    case Seq(items) => |items|
    case Map(m) => |m|
    case Str(s) => |s|
    case _ => 0
  }

  /** Python's `seq[i]` index: negative positions count from the end. */
  function PyIndex(i: int, n: nat): (r: Option<nat>)
    ensures r.Some? <==> -(n as int) <= i < n
    ensures r.Some? ==> r.value < n
    ensures r.Some? && i >= 0 ==> r.value == i
    ensures r.Some? && i < 0 ==> r.value == n + i
  {
    if 0 <= i < n then Some(i) else if -(n as int) <= i < 0 then Some(n + i) else None
  }

  /**
   * The key and the child the builder takes for `row`: `str(row)` and the
   * element for a sequence (an error text when the index is out of range),
   * the row-th entry in key order for a mapping (IndexError when out of
   * range), TypeError for anything else.
   */
  function Entry(buildFrom: Value, row: int): (r: Result<(string, Value)>)
    ensures r.Err? <==> !(buildFrom.Seq? || buildFrom.Str? || buildFrom.Map?) ||
                        (buildFrom.Map? && PyIndex(row, |buildFrom.entries|).None?)
    ensures r.Err? && buildFrom.Map? ==> r.error == IndexError
    ensures r.Err? && !buildFrom.Map? ==> r.error == TypeError
    ensures buildFrom.Seq? && 0 <= row < |buildFrom.items| ==> r == Ok((NatToString(row), buildFrom.items[row]))
    ensures buildFrom.Map? && 0 <= row < |buildFrom.entries| ==>
              var k := SortedKeys(buildFrom.entries.Keys)[row];
              r == Ok((k, buildFrom.entries[k]))
  {
    match buildFrom
    case Seq(items) =>
      var child := match PyIndex(row, |items|)
        case Some(i) => items[i]
        case None => Str("Error getting child: list index out of range");
      Ok((IntToString(row), child))
    case Str(s) =>
      var child := match PyIndex(row, |s|)
        case Some(i) => Str([s[i]])
        case None => Str("Error getting child: string index out of range");
      Ok((IntToString(row), child))
    case Map(m) =>
      var keys := SortedKeys(m.Keys);
      (match PyIndex(row, |keys|)
       case Some(i) => Ok((keys[i], m[keys[i]]))
       case None => Err(IndexError))
    case _ => Err(TypeError)
  }

  /** What the builder makes: the child's three columns, and the data it nests if it is lazy. */
  datatype ChildSpec = ChildSpec(columnData: seq<Value>, nested: Option<Value>)

  /** The data a child nests: none for a string, itself for a list or dict, else its `obj_dict`. */
  function Nested(objDict: ObjDict, child: Value): Option<Value> {
    if child.Str? then None
    else if child.Seq? || child.Map? then Some(child)
    else match objDict(child)
      case Some(fields) => Some(Map(fields))
      case None => None
  }

  /** `_item_builder(build_from, row)`, apart from allocating the item. */
  function ItemBuilder(objDict: ObjDict, buildFrom: Value, row: int): (r: Result<ChildSpec>)
    ensures r.Err? <==> Entry(buildFrom, row).Err?
    ensures r.Err? ==> r.error == Entry(buildFrom, row).error
    ensures r.Ok? ==>
              var (key, child) := Entry(buildFrom, row).value;
              r.value.columnData == [Str(key), Str(Utils.PrettyTypeString(Utils.TypeName(child))), child]
  {
    match Entry(buildFrom, row)
    case Err(e) => Err(e)
    case Ok((key, child)) =>
      Ok(ChildSpec([Str(key), Str(Utils.PrettyTypeString(Utils.TypeName(child))), child], Nested(objDict, child)))
  }

  /** Every row of a list, string or dict can be built. */
  lemma BuilderTotal(objDict: ObjDict, buildFrom: Value, row: int)
    requires buildFrom.Seq? || buildFrom.Map? || buildFrom.Str?
    requires 0 <= row < NestedCount(buildFrom)
    ensures ItemBuilder(objDict, buildFrom, row).Ok?
  {
    if buildFrom.Map? {
      assert |SortedKeys(buildFrom.entries.Keys)| == |buildFrom.entries.Keys|;
    }
  }

  /**
   * A built child is lazy exactly when it is a non-string sequence or mapping
   * or `obj_dict` succeeds on it, and then it has as many children as that
   * nested data; a string is always a leaf.
   */
  lemma LazyIffNested(objDict: ObjDict, buildFrom: Value, row: int)
    requires ItemBuilder(objDict, buildFrom, row).Ok?
    ensures var spec := ItemBuilder(objDict, buildFrom, row).value;
            var child := spec.columnData[2];
            (spec.nested.Some? <==> child.Seq? || child.Map? || (!child.Str? && objDict(child).Some?)) &&
            (child.Str? ==> spec.nested.None?) &&
            (child.Seq? || child.Map? ==> spec.nested == Some(child)) &&
            (spec.nested.Some? ==>
               NestedCount(spec.nested.value) == if child.Seq? || child.Map? then NestedCount(child) else |objDict(child).value|)
  {
  }

  /** The children of a mapping come in ascending key order, each key once, covering every key. */
  lemma MappingRowsSorted(objDict: ObjDict, m: map<string, Value>)
    ensures forall r1, r2 :: 0 <= r1 < r2 < |m| ==>
              var k1 := ItemBuilder(objDict, Map(m), r1).value.columnData[0].s;
              var k2 := ItemBuilder(objDict, Map(m), r2).value.columnData[0].s;
              StrLeq(k1, k2) && k1 != k2
    ensures forall k :: k in m ==>
              exists r :: 0 <= r < |m| &&
                ItemBuilder(objDict, Map(m), r).value.columnData == [Str(k), Str(Utils.PrettyTypeString(Utils.TypeName(m[k]))), m[k]]
  {
    var keys := SortedKeys(m.Keys);
    assert |keys| == |m.Keys| == |m|;
    forall k | k in m
      ensures exists r :: 0 <= r < |m| &&
                ItemBuilder(objDict, Map(m), r).value.columnData == [Str(k), Str(Utils.PrettyTypeString(Utils.TypeName(m[k]))), m[k]]
    {
      var r :| 0 <= r < |keys| && keys[r] == k;
      assert ItemBuilder(objDict, Map(m), r).value.columnData == [Str(k), Str(Utils.PrettyTypeString(Utils.TypeName(m[k]))), m[k]];
    }
  }

  /** The children of a sequence are keyed by their index. */
  lemma SequenceRowsKeyed(objDict: ObjDict, items: seq<Value>, row: nat)
    requires row < |items|
    ensures ItemBuilder(objDict, Seq(items), row).value.columnData[0] == Str(NatToString(row))
    ensures ItemBuilder(objDict, Seq(items), row).value.columnData[2] == items[row]
  {
  }

  /**
   * A tree item: `DataTreeItem` (children appended explicitly) when `lazy`
   * is false, `LazyMappingItem` (a fixed number of children built on
   * demand from the raw data) when it is true. The builder an item keeps is
   * `_item_builder`, which only depends on the `obj_dict` it uses.
   */
  class TreeItem {
    const columnData: seq<Value>
    const strings: seq<string>
    const parent: TreeItem?
    const lazy: bool
    const numChildren: nat
    var list: seq<TreeItem>
    var built: map<int, TreeItem>
    var raw: Option<Value>
    var builder: Option<ObjDict>

    /** `DataTreeItem(column_data, parent)`. */
    constructor Leaf(columnData: seq<Value>, parent: TreeItem?)
      ensures this.columnData == columnData && strings == ItemStrings(columnData) && this.parent == parent
      ensures !lazy && list == [] && built == map[] && raw.None? && builder.None?
      ensures Valid()
    {
      this.columnData := columnData;
      this.strings := ItemStrings(columnData);
      this.parent := parent;
      this.lazy := false;
      this.numChildren := 0;
      this.list := [];
      this.built := map[];
      this.raw := None;
      this.builder := None;
    }

    /** `LazyMappingItem(column_data, raw_data, child_builder, num_children, parent)`. */
    constructor Lazy(columnData: seq<Value>, raw: Value, objDict: ObjDict, numChildren: nat, parent: TreeItem?)
      requires raw.Seq? || raw.Map? || raw.Str?
      requires numChildren == NestedCount(raw)
      ensures this.columnData == columnData && strings == ItemStrings(columnData) && this.parent == parent
      ensures lazy && this.numChildren == numChildren && list == [] && built == map[]
      ensures this.raw == Some(raw) && builder == Some(objDict)
      ensures Valid()
    {
      this.columnData := columnData;
      this.strings := ItemStrings(columnData);
      this.parent := parent;
      this.lazy := true;
      this.numChildren := numChildren;
      this.list := [];
      this.built := map[];
      this.raw := Some(raw);
      this.builder := Some(objDict);
    }

    /**
     * The cache of a lazy item holds children of rows within range, each
     * a distinct item whose parent is this one; while a row is missing the
     * raw data and the builder are still there, and they match the fixed
     * child count; once every row is built they are gone.
     */
    predicate Valid()
      reads this
    {
      strings == ItemStrings(columnData) &&
      (!lazy ==> built == map[] && raw.None? && builder.None?) &&
      (lazy ==>
        list == [] &&
        (forall r :: r in built ==> 0 <= r < numChildren) &&
        (forall r :: r in built ==> built[r].parent == this) &&
        (forall r1, r2 :: r1 in built && r2 in built && r1 != r2 ==> built[r1] != built[r2]) &&
        (|built| < numChildren ==> raw.Some? && builder.Some?) &&
        (raw.Some? ==> (raw.value.Seq? || raw.value.Map? || raw.value.Str?) && NestedCount(raw.value) == numChildren) &&
        (raw.Some? <==> builder.Some?) &&
        (|built| == numChildren && numChildren > 0 ==> raw.None?))
    }

    /** `column_count()`. */
    function ColumnCount(): nat {
      |columnData|
    }

    /** `data(column)`: the datum, or nothing outside `[0, column_count)`. */
    function DataAt(column: int): (r: Option<Value>)
      ensures r.Some? <==> 0 <= column < ColumnCount()
      ensures r.Some? ==> r.value == columnData[column]
    {
      if column < 0 || column >= ColumnCount() then None else Some(columnData[column])
    }

    /** `string(column)`: the datum's pretty string, or nothing outside `[0, column_count)`. */
    function StringAt(column: int): (r: Option<string>)
      requires |strings| == |columnData|
      ensures r.Some? <==> 0 <= column < ColumnCount()
      ensures r.Some? ==> r.value == strings[column]
    {
      if column < 0 || column >= ColumnCount() then None else Some(strings[column])
    }

    /** `child_count()`: the fixed count of a lazy item, the appended children of a data item. */
    function ChildCount(): nat
      reads this
    {
      if lazy then numChildren else |list|
    }

    /** `DataTreeItem.append_child(child)`. */
    method AppendChild(child: TreeItem)
      requires Valid() && !lazy
      modifies this
      ensures list == old(list) + [child]
      ensures built == old(built) && raw == old(raw) && builder == old(builder)
      ensures ChildCount() == old(ChildCount()) + 1
      ensures Valid()
    {
      list := list + [child];
    }

    /**
     * `child(row)`: nothing outside `[0, child_count)`; a data item hands
     * back its appended child. A lazy item builds the row's child the first
     * time (and drops its raw data and builder when that was the last
     * missing row) and hands back the cached child every later time.
     */
    method Child(row: int) returns (c: TreeItem?)
      requires Valid()
      modifies this
      ensures Valid()
      ensures c == null <==> !(0 <= row < ChildCount())
      ensures ChildCount() == old(ChildCount())
      ensures !lazy ==> list == old(list) && c == (if 0 <= row < |list| then list[row] else null)
      ensures !(lazy && 0 <= row < numChildren && row !in old(built)) ==>
                built == old(built) && raw == old(raw) && builder == old(builder)
      ensures lazy && 0 <= row < numChildren ==> row in built && c == built[row]
      ensures lazy && row in old(built) ==> c == old(built)[row]
      ensures lazy && 0 <= row < numChildren && row !in old(built) ==>
                old(raw).Some? && old(builder).Some? &&
                var spec := ItemBuilder(old(builder).value, old(raw).value, row).value;
                fresh(c) && c.Valid() && c.parent == this &&
                built == old(built)[row := c] &&
                c.columnData == spec.columnData &&
                c.lazy == spec.nested.Some? &&
                (c.lazy ==> c.raw == spec.nested && c.numChildren == NestedCount(spec.nested.value) &&
                            c.builder == old(builder)) &&
                (|built| == numChildren ==> raw.None? && builder.None?) &&
                (|built| < numChildren ==> raw == old(raw) && builder == old(builder))
    {
      if row < 0 || row >= ChildCount() {
        return null;
      }
      if !lazy {
        return list[row];
      }
      if row !in built {
        BoundedSetSize(built.Keys + {row}, numChildren);
        var objDict := builder.value;
        var from := raw.value;
        BuilderTotal(objDict, from, row);
        var child := NewChild(objDict, from, row, this);
        Cache(row, child);
      }
      c := built[row];
    }

    /** Caching a newly built child; the raw data and builder go once every row is built. */
    method Cache(row: int, child: TreeItem)
      requires Valid() && lazy && 0 <= row < numChildren && row !in built
      requires raw.Some? && builder.Some?
      requires child.parent == this && child !in built.Values
      modifies this
      ensures Valid()
      ensures list == old(list) && built == old(built)[row := child]
      ensures |built| == numChildren ==> raw.None? && builder.None?
      ensures |built| < numChildren ==> raw == old(raw) && builder == old(builder)
    {
      ghost var before := built;
      built := built[row := child];
      assert forall r :: r in built ==> r == row || (r in before && built[r] == before[r]);
      if |built| == numChildren {
        raw := None;
        builder := None;
      }
    }

    /** The item `_item_builder` allocates for a built row: lazy over nested data, a leaf otherwise. */
    static method NewChild(objDict: ObjDict, from: Value, row: int, parent: TreeItem) returns (child: TreeItem)
      requires ItemBuilder(objDict, from, row).Ok?
      ensures var spec := ItemBuilder(objDict, from, row).value;
              fresh(child) && child.Valid() && child.parent == parent &&
              child.columnData == spec.columnData &&
              child.lazy == spec.nested.Some? &&
              (child.lazy ==> child.raw == spec.nested && child.numChildren == NestedCount(spec.nested.value) &&
                              child.builder == Some(objDict))
    {
      var spec := ItemBuilder(objDict, from, row).value;
      if spec.nested.Some? {
        LazyIffNested(objDict, from, row);
        child := new TreeItem.Lazy(spec.columnData, spec.nested.value, objDict, NestedCount(spec.nested.value), parent);
      } else {
        child := new TreeItem.Leaf(spec.columnData, parent);
      }
    }

    /**
     * `child_row(item)`: the row `item` is the child of (its list index for
     * a data item, the row it was built under for a lazy one), or ValueError.
     */
    method ChildRow(item: TreeItem) returns (r: Result<nat>)
      requires Valid()
      ensures !lazy ==> (r.Ok? <==> item in list)
      ensures !lazy && r.Ok? ==> r.value < |list| && list[r.value] == item && item !in list[..r.value]
      ensures lazy ==> (r.Ok? <==> item in built.Values)
      ensures lazy && r.Ok? ==> r.value in built && built[r.value] == item
      ensures r.Err? ==> r.error == ValueError
    {
      if !lazy {
        if item in list {
          return Ok(Seqs.IndexOf(list, item));
        }
        return Err(ValueError);
      }
      for row := 0 to numChildren
        invariant forall q :: 0 <= q < row && q in built ==> built[q] != item
      {
        if row in built && built[row] == item {
          return Ok(row);
        }
      }
      return Err(ValueError);
    }

    /** `row()`: 0 for the root, otherwise the row the parent knows this item under. */
    method Row() returns (r: Result<nat>)
      requires parent != null ==> parent.Valid()
      ensures parent == null ==> r == Ok(0)
      ensures parent != null && r.Ok? ==>
                if parent.lazy then r.value in parent.built && parent.built[r.value] == this
                else r.value < |parent.list| && parent.list[r.value] == this
      ensures parent != null && parent.lazy ==> (r.Ok? <==> this in parent.built.Values)
      ensures parent != null && !parent.lazy ==> (r.Ok? <==> this in parent.list)
    {
      if parent == null {
        return Ok(0);
      }
      r := parent.ChildRow(this);
    }
  }

  /** A set of rows within `[0, n)` has at most `n` elements. */
  lemma {:induction false} BoundedSetSize(a: set<int>, n: nat)
    requires forall x :: x in a ==> 0 <= x < n
    ensures |a| <= n
    decreases n
  {
    if n == 0 {
      assert forall x :: x !in a;
      assert a == {};
    } else {
      BoundedSetSize(a - {n - 1}, n - 1);
    }
  }

  /** `{'record': record._asdict()}`, plus `'obj'` when an object is given. */
  function RootDict(record: Record, obj: Value): (d: map<string, Value>)
    ensures d.Keys == if obj == Null then {"record"} else {"obj", "record"}
    ensures d["record"] == Map(AsDict(record))
    ensures obj != Null ==> d["obj"] == obj
  {
    var d := map["record" := Map(AsDict(record))];
    if obj == Null then d else d["obj" := obj]
  }

  /**
   * The root's rows: one for the record, and before it one for the object
   * when that is given, since "obj" sorts before "record". The object shows
   * in the value column.
   */
  lemma RootRows(objDict: ObjDict, record: Record, obj: Value)
    ensures var d := Map(RootDict(record, obj));
            var last := NestedCount(d) - 1;
            NestedCount(d) == (if obj == Null then 1 else 2) &&
            ItemBuilder(objDict, d, last).value.columnData[0] == Str("record") &&
            ItemBuilder(objDict, d, last).value.columnData[2] == Map(AsDict(record)) &&
            (obj != Null ==> ItemBuilder(objDict, d, 0).value.columnData[0] == Str("obj") &&
                             ItemBuilder(objDict, d, 0).value.columnData[2] == obj)
  {
    var m := RootDict(record, obj);
    assert m["record"] == Map(AsDict(record));
    if obj == Null {
      RecordRow(objDict, m);
    } else {
      ObjectAndRecordRows(objDict, m);
    }
  }

  /** A root over the record alone has the record's row only. */
  lemma RecordRow(objDict: ObjDict, m: map<string, Value>)
    requires m.Keys == {"record"}
    ensures NestedCount(Map(m)) == 1 && ItemBuilder(objDict, Map(m), 0).Ok?
    ensures ItemBuilder(objDict, Map(m), 0).value.columnData[0] == Str("record")
    ensures ItemBuilder(objDict, Map(m), 0).value.columnData[2] == m["record"]
  {
    assert |m.Keys| == 1;
    assert NestedCount(Map(m)) == |m| == |m.Keys|;
    var keys := SortedKeys(m.Keys);
    assert keys[0] in m.Keys;
    MapRowColumns(objDict, m, 0);
  }

  /** A root over an object and the record has the object's row, then the record's. */
  lemma ObjectAndRecordRows(objDict: ObjDict, m: map<string, Value>)
    requires m.Keys == {"obj", "record"}
    ensures NestedCount(Map(m)) == 2 && ItemBuilder(objDict, Map(m), 0).Ok? && ItemBuilder(objDict, Map(m), 1).Ok?
    ensures ItemBuilder(objDict, Map(m), 0).value.columnData[0] == Str("obj")
    ensures ItemBuilder(objDict, Map(m), 0).value.columnData[2] == m["obj"]
    ensures ItemBuilder(objDict, Map(m), 1).value.columnData[0] == Str("record")
    ensures ItemBuilder(objDict, Map(m), 1).value.columnData[2] == m["record"]
  {
    assert "obj" != "record" && |m.Keys| == 2;
    assert NestedCount(Map(m)) == |m| == |m.Keys|;
    var keys := SortedKeys(m.Keys);
    assert keys[0] in m.Keys && keys[1] in m.Keys && keys[0] != keys[1];
    assert StrLeq(keys[0], keys[1]);
    assert !StrLeq("record", "obj");
    assert keys[0] == "obj" && keys[1] == "record";
    MapRowColumns(objDict, m, 0);
    MapRowColumns(objDict, m, 1);
  }

  /** Row `row` of a mapping shows its row-th key in key order and that key's value. */
  lemma MapRowColumns(objDict: ObjDict, m: map<string, Value>, row: nat)
    requires row < |m.Keys|
    ensures var k := SortedKeys(m.Keys)[row];
            ItemBuilder(objDict, Map(m), row).Ok? &&
            ItemBuilder(objDict, Map(m), row).value.columnData[0] == Str(k) &&
            ItemBuilder(objDict, Map(m), row).value.columnData[2] == m[k]
  {
    assert |m| == |m.Keys|;
  }

  /** The details tree model: `EntryDetails` (and its duplicate `RecordTree`). */
  class EntryDetailsModel {
    const objDict: ObjDict
    var root: TreeItem
    var record: Option<Record>

    /** A fresh model: an empty root carrying the headers, no record. */
    constructor(objDict: ObjDict)
      ensures this.objDict == objDict && record.None?
      ensures fresh(root) && root.Valid() && root.parent == null
      ensures root.columnData == COLUMN_HEADERS && !root.lazy && root.list == []
    {
      this.objDict := objDict;
      root := new TreeItem.Leaf(COLUMN_HEADERS, null);
      record := None;
    }

    /** `headerData`: the root's datum for a horizontal display-role section, otherwise nothing. */
    function HeaderData(section: int, orientation: Orientation, role: Role): (r: Option<Value>)
      reads this
      ensures r.Some? <==> orientation == Horizontal && role == DisplayRole && 0 <= section < |root.columnData|
      ensures r.Some? ==> r.value == root.columnData[section]
    {
      if orientation == Horizontal && role == DisplayRole then root.DataAt(section) else None
    }

    /**
     * `set_record(record, obj)`: no record gives an empty root; a record
     * gives a lazy root over `{'record': fields}` (plus `'obj'` when an
     * object is given), so with one or two rows.
     */
    method SetRecord(record: Option<Record>, obj: Value)
      modifies this
      ensures this.record == record
      ensures fresh(root) && root.Valid() && root.parent == null && root.columnData == COLUMN_HEADERS
      ensures record.None? ==> !root.lazy && root.list == []
      ensures record.Some? ==>
                root.lazy && root.built == map[] && root.builder == Some(objDict) &&
                root.raw == Some(Map(RootDict(record.value, obj))) &&
                root.numChildren == (if obj == Null then 1 else 2)
    {
      this.record := record;
      if record.None? {
        root := new TreeItem.Leaf(COLUMN_HEADERS, null);
      } else {
        var treeDict := RootDict(record.value, obj);
        root := new TreeItem.Lazy(COLUMN_HEADERS, Map(treeDict), objDict, |treeDict|, null);
      }
    }

    /** `reset()`: back to an empty root, only when a record is set. */
    method Reset()
      modifies this
      ensures old(record).None? ==> root == old(root) && record.None?
      ensures old(record).Some? ==>
                record.None? && fresh(root) && root.Valid() && root.parent == null &&
                root.columnData == COLUMN_HEADERS && !root.lazy && root.list == []
    {
      if record.Some? {
        root := new TreeItem.Leaf(COLUMN_HEADERS, null);
        record := None;
      }
    }
  }
}
