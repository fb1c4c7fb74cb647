/**
 * Columns of the entry table: what a column shows for a record under each
 * item-data role. A column is an object whose identity matters (the table
 * finds and removes columns by identity), so it is a class; its fields are
 * fixed at construction and every query on it is a function.
 */
module Columns {
  import opened Values
  import Utils

  /** The item-data roles the columns tell apart; `OtherRole` stands for every other role. */
  datatype Role = DataRole | DisplayRole | ToolTipRole | FontRole | OtherRole

  /** What `data()` hands back to the view: nothing, a raw value, a text, or an italic font. */
  datatype Cell = NoCell | Raw(v: Value) | Text(s: string) | ItalicFont

  /** `Column`, `DataColumn(path)` or `TypeColumn` (a data column on `type_id`). */
  datatype ColumnKind = Plain | Data(path: seq<PathKey>) | TypeOf

  /** The formatter every predefined column uses: one line of at most 100 characters. */
  function DefaultFormatter(v: Value): string {
    Utils.PrettyFormat(v, true, Some(100))
  }

  class Column {
    const name: string
    const kind: ColumnKind
    const formatter: Value -> string
    const tooltip: Option<string>

    /** `Column(name, formatter, tooltip)`. */
    constructor Plain(name: string, formatter: Value -> string, tooltip: Option<string>)
      ensures this.name == name && kind == ColumnKind.Plain
      ensures this.formatter == formatter && this.tooltip == tooltip
    {
      this.name := name;
      this.kind := ColumnKind.Plain;
      this.formatter := formatter;
      this.tooltip := tooltip;
    }

    /** `DataColumn(name, path, formatter, tooltip)`: an empty or missing path means `[name]`. */
    constructor Data(name: string, path: seq<PathKey>, formatter: Value -> string, tooltip: Option<string>)
      ensures this.name == name && kind == ColumnKind.Data(path)
      ensures Path() == if path == [] then [Key(name)] else path
      ensures this.formatter == formatter && this.tooltip == tooltip
    {
      this.name := name;
      this.kind := ColumnKind.Data(path);
      this.formatter := formatter;
      this.tooltip := tooltip;
    }

    /** `TypeColumn(name, tooltip)`: a data column on `type_id` with the default formatter. */
    constructor TypeColumn(name: string, tooltip: Option<string>)
      ensures this.name == name && kind == TypeOf && Path() == [Key(TYPE_ID)]
      ensures this.formatter == DefaultFormatter && this.tooltip == tooltip
    {
      this.name := name;
      this.kind := TypeOf;
      this.formatter := DefaultFormatter;
      this.tooltip := tooltip;
    }

    /** `isinstance(col, DataColumn)`; a type column is one too. */
    predicate IsDataColumn() {
      kind.Data? || kind.TypeOf?
    }

    /** The path of a data column: the given one, or `[name]` when that is empty. */
    function Path(): (p: seq<PathKey>)
      requires IsDataColumn()
      ensures p != []
    {
      if kind.TypeOf? then [Key(TYPE_ID)] else if kind.path == [] then [Key(name)] else kind.path
    }

    /** Whether this is a data column on exactly `('state', key)`. */
    predicate IsStateColumn(key: string) {
      IsDataColumn() && Path() == [Key(STATE), Key(key)]
    }

    /** `Column.data`: the tooltip for the tooltip role and nothing otherwise. */
    function BaseData(role: Role): (c: Cell)
      ensures role == ToolTipRole && tooltip.Some? ==> c == Text(tooltip.value)
      ensures !(role == ToolTipRole && tooltip.Some?) ==> c == NoCell
    {
      if role == ToolTipRole && tooltip.Some? then Text(tooltip.value) else NoCell
    }

    /**
     * The raw value of a data column: attribute `path[0]` of the record, then
     * item access along the rest of the path. A missing key or index yields
     * `None`; a non-string attribute name, an unknown attribute or item
     * access on a value that has none raises.
     */
    function PathValue(record: Record, path: seq<PathKey>): (r: Result<Option<Value>>)
      requires path != []
      ensures r.Ok? && r.value.Some? ==>
                path[0].Key? && Attr(record, path[0].name).Ok? &&
                GetByPath(Attr(record, path[0].name).value, path[1..]) == Ok(r.value.value)
      ensures r.Ok? && r.value.None? ==>
                path[0].Key? && Attr(record, path[0].name).Ok? &&
                GetByPath(Attr(record, path[0].name).value, path[1..]).Err? &&
                GetByPath(Attr(record, path[0].name).value, path[1..]).error in {KeyError, IndexError}
      ensures r.Err? ==> r.error in {TypeError, AttributeError}
    {
      match path[0]
      case Index(_) => Err(TypeError)
      case Key(attr) =>
        match Attr(record, attr)
        case Err(e) => Err(e)
        case Ok(entry) =>
          if |path| > 1 then
            match GetByPath(entry, path[1..])
            case Ok(v) => Ok(Some(v))
            case Err(e) => if e == KeyError || e == IndexError then Ok(None) else Err(e)
          else
            assert path[1..] == [];
            Ok(Some(entry))
    }

    /** The cell of a data column for the data and display roles, given its raw value. */
    function Shown(value: Option<Value>, role: Role): Cell
      requires role == DataRole || role == DisplayRole
    {
      match value
      case None => NoCell
      case Some(v) => if role == DataRole then Raw(v) else Text(formatter(v))
    }

    /** `DataColumn.data`, for a data column. */
    function DataColumnData(record: Record, role: Role): (r: Result<Cell>)
      requires IsDataColumn()
      ensures role != DataRole && role != DisplayRole ==> r.Ok?
      ensures role == FontRole ==>
                (r == Ok(ItalicFont) <==> Path()[0].Key? && IsRecordField(Path()[0].name))
    {
      if role == DataRole || role == DisplayRole then
        match PathValue(record, Path())
        case Err(e) => Err(e)
        case Ok(value) => Ok(Shown(value, role))
      else if role == FontRole && Path()[0].Key? && IsRecordField(Path()[0].name) then
        Ok(ItalicFont)
      else Ok(BaseData(role))
    }

    /**
     * `data(record, role, historian)`, dispatched on the kind of column. A
     * type column shows the class the historian resolves the type id to,
     * and falls back to the plain data column without a historian or when
     * the id is unknown.
     */
    function CellData(record: Record, role: Role, historian: Option<Historian>): (r: Result<Cell>)
      ensures kind.Plain? ==> r == Ok(BaseData(role))
      ensures kind.TypeOf? && (role == DataRole || role == DisplayRole) && historian.Some? &&
              historian.value.GetObjType(record.typeId).Ok? ==>
                var t := historian.value.GetObjType(record.typeId).value;
                r == Ok(if role == DataRole then Raw(t) else Text(formatter(t)))
      ensures kind.TypeOf? && (historian.None? || historian.value.GetObjType(record.typeId).Err?) ==>
                r == DataColumnData(record, role)
      ensures kind.Data? ==> r == DataColumnData(record, role)
    {
      match kind
      case Plain => Ok(BaseData(role))
      case Data(_) => DataColumnData(record, role)
      case TypeOf =>
        if (role == DataRole || role == DisplayRole) && historian.Some? then
          match historian.value.GetObjType(record.typeId)
          case Err(_) => DataColumnData(record, role)
          case Ok(t) => Ok(if role == DataRole then Raw(t) else Text(formatter(t)))
        else DataColumnData(record, role)
    }
  }

  /**
   * The display role shows the formatter applied to exactly the value the
   * data role returns, and both roles agree on failing and on showing nothing.
   */
  lemma DisplayFormatsData(c: Column, record: Record, historian: Option<Historian>)
    ensures var d := c.CellData(record, DataRole, historian);
            var s := c.CellData(record, DisplayRole, historian);
            (d.Err? <==> s.Err?) &&
            (d.Err? ==> d.error == s.error) &&
            (d == Ok(NoCell) <==> s == Ok(NoCell) || (c.kind.Plain? && s.Ok?)) &&
            (d.Ok? && d.value.Raw? ==> s == Ok(Text(c.formatter(d.value.v))))
  {
  }

  /**
   * A data column on `('state', key)` shows the state entry `key`, shows
   * nothing when the state is a dict without that key, and raises TypeError
   * when the state cannot be indexed by a string.
   */
  lemma StateColumnData(c: Column, record: Record, key: string)
    requires c.kind == ColumnKind.Data([Key(STATE), Key(key)])
    ensures record.state.Map? && key in record.state.entries ==>
              c.CellData(record, DataRole, None) == Ok(Raw(record.state.entries[key]))
    ensures record.state.Map? && key !in record.state.entries ==>
              c.CellData(record, DataRole, None) == Ok(NoCell)
    ensures !record.state.Map? ==> c.CellData(record, DataRole, None) == Err(TypeError)
  {
    var p := [Key(STATE), Key(key)];
    assert p[1..] == [Key(key)];
    assert [Key(key)][1..] == [];
    assert Attr(record, STATE) == Ok(record.state);
    assert GetByPath(record.state, [Key(key)]) == (match GetItem(record.state, Key(key))
                                                   case Ok(v) => GetByPath(v, [])
                                                   case Err(e) => Err(e));
  }

  /** The five predefined columns, shared by every table that shows them. */
  class StandardColumns {
    const objId: Column
    const objType: Column
    const ctime: Column
    const mtime: Column
    const version: Column

    constructor()
      ensures objId.name == OBJ_ID && objId.kind == ColumnKind.Data([]) && objId.Path() == [Key(OBJ_ID)]
      ensures objId.tooltip == Some("Object ID")
      ensures objType.name == "Obj type" && objType.kind == TypeOf
      ensures objType.tooltip == Some("Object type")
      ensures ctime.name == CREATION_TIME && ctime.kind == ColumnKind.Data([]) && ctime.Path() == [Key(CREATION_TIME)]
      ensures ctime.tooltip == Some("Creation time")
      ensures mtime.name == SNAPSHOT_TIME && mtime.kind == ColumnKind.Data([]) && mtime.Path() == [Key(SNAPSHOT_TIME)]
      ensures mtime.tooltip == Some("Modification time")
      ensures version.name == VERSION && version.kind == ColumnKind.Data([]) && version.Path() == [Key(VERSION)]
      ensures version.tooltip == Some("Version")
      ensures objId.formatter == DefaultFormatter && ctime.formatter == DefaultFormatter
      ensures mtime.formatter == DefaultFormatter && version.formatter == DefaultFormatter
      ensures objType.formatter == DefaultFormatter
      ensures fresh(objId) && fresh(objType) && fresh(ctime) && fresh(mtime) && fresh(version)
      ensures objType != ctime && objType != mtime && objType != version
      ensures ctime != mtime && ctime != version && mtime != version
    {
      objId := new Column.Data(OBJ_ID, [], DefaultFormatter, Some("Object ID"));
      objType := new Column.TypeColumn("Obj type", Some("Object type"));
      ctime := new Column.Data(CREATION_TIME, [], DefaultFormatter, Some("Creation time"));
      mtime := new Column.Data(SNAPSHOT_TIME, [], DefaultFormatter, Some("Modification time"));
      version := new Column.Data(VERSION, [], DefaultFormatter, Some("Version"));
    }

    /** `get_default_columns()`: type, creation time, modification time, version. */
    function Defaults(): (cs: seq<Column>)
      ensures |cs| == 4 && cs[0] == objType && cs[1] == ctime && cs[2] == mtime && cs[3] == version
    {
      [objType, ctime, mtime, version]
    }
  }
}
