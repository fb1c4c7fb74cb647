# mincepy-gui core, modelled in Dafny

mincepy-gui is a Qt browser for a mincepy object store. Under its widgets is
a set of sequential, stateful list, dictionary and tree algorithms. This
project models them and proves what they promise:

- **Paged entry table.** Records are pulled from an iterator in fixed-size
  batches. The table holds a column list. As rows arrive, a controller adds
  a `state.<key>` column for each key of their dict states that no column
  shows yet. Before rows leave, it drops the columns of keys that only the
  leaving rows have. The scan for those keys raises on a remaining row
  whose state is not a dict; Qt swallows the exception, and the columns then
  stay as they were. The controller never adds a second column for a key.
  Direct calls to `remove_columns` and `set_columns` are not policed
  (`entry_table.py`).
- **Column projections.** A column maps a record to what the view shows
  under each role: role dispatch and dotted-path lookup (`columns.py`).
- **Query document model.** `set_query`, `update_query`, the type, sort
  and show-current setters, batching of the store's results by 4, and
  appending the batches to the results (`query.py`). `DataRecordQueryModel`
  in `models.py` is the same code.
- **Entries table over a query.** Column inference from the rows, a
  snapshot cache, cell lookup by dotted name, sorting, activation and the
  selection (`records.py`). `EntriesTable` in `models.py` is the same code.
- **Lazily built details tree.** Each child is built once, cached, and the
  raw data is dropped once every child exists (`entry_details.py`).
  `tree_models.py` duplicates it.
- **String helpers.** Bounded single-line formatting, type-name shortening,
  and the UUID/ObjectId JSON encoder and decoder (`utils.py`).
- **Action registry and built-in actioners** (`extend.py`, `actioners.py`).
- **Database model** and its transactional `delete` (`db.py`).
- **Executor** with its running and blocking counters (`executors.py`).

One Dafny module per source file:

| module | file |
|---|---|
| `Seqs` | Python list operations |
| `Values` | values, records, the historian |
| `Utils`, `Columns`, `EntryTable`, `EntryDetails`, `Query`, `Records`, `Actioners`, `Extend`, `Db`, `Executors` | their namesake files |

Objects whose fields the source updates in place are classes with
`modifies` clauses:

- `EntryTableModel`, `EntryTableController`
- `TreeItem`, `EntryDetailsModel`
- `QueryModel`, `EntriesTable`
- `ActionManager`, `DatabaseModel`, `Executor`

Loops in the source are `while`/`for` loops with invariants. Each such
method is proved against a function that states what it computes.

Qt signals become an event log on each object. A slot that Qt calls
synchronously is called in the same order, for example `rowsInserted` into
the column handler. Store calls are fields of a `Historian` value:
`find_records`, `load_snapshot`, `get_obj_type` and `delete`.

## Model

| member | source | states |
|---|---|---|
| Values.Attr | mincepy_gui/columns.py:50 | `getattr(record, name)` succeeds exactly for the eight record fields (`snapshot_hash` and `state_types` among them), giving that field, and for the `snapshot_id` property, giving the snapshot id; any other name gives AttributeError in the model |
| Values.GetItem | mincepy_gui/columns.py:53-56 | item access: a dict key is found iff present; a sequence index works iff inside `[-len, len)`; TypeError exactly on values that cannot be indexed that way; only KeyError, IndexError or TypeError are raised |
| Values.GetByPath | mincepy_gui/columns.py:54 | `get_by_path` fails only with KeyError, IndexError or TypeError, the errors of item access |
| Values.AsDict | mincepy_gui/entry_details.py:218 | `_asdict()` has exactly the eight field names, holding the record's state, type id and object id |
| Values.GetByPathAppend | mincepy_gui/columns.py:50-54 | following a path and then its continuation equals following the joined path |
| Values.StatePath | mincepy_gui/records.py:202-204 | the path `state.k` into a record's fields succeeds iff the state is a dict holding `k`, and then gives that entry |
| Values.SortedKeys | mincepy_gui/entry_details.py:239 | `sorted(keys)` has every key once, nothing else, in strictly increasing `str` order |
| Values.NatToStringInjective | mincepy_gui/entry_details.py:233 | distinct rows get distinct `str(row)` keys |
| Values.NatToString | mincepy_gui/entry_table.py:56 | `str(row)` is a non-empty string of decimal digits |
| Values.ParseNatToString | mincepy_gui/entry_table.py:56 | reading the digits back gives the number |
| Utils.Split | mincepy_gui/utils.py:68 | `split` never gives an empty list and no piece holds the separator |
| Utils.JoinSplit | mincepy_gui/utils.py:68-70 | joining the pieces with the separator gives the name back |
| Utils.PrettyTypeStringShape | mincepy_gui/utils.py:65-72 | a name of more than two dotted parts becomes a different, dot-free `first\|last`; any other name is unchanged |
| Utils.RemoveChar | mincepy_gui/utils.py:91 | `replace(c, '')` keeps exactly the other characters and leaves no `c` |
| Utils.PrefixUpTo | mincepy_gui/utils.py:93 | `s[:k]` is the first `k` characters within range and all of `s` past the end |
| Utils.Bound | mincepy_gui/utils.py:90-93 | single-line output holds no newline; with `max_length >= 3` the output is at most that long |
| Utils.PrettyFormat | mincepy_gui/utils.py:75-95 | types give their short name; datetimes give their formatted time; everything else gets the line and length rules |
| Utils.PrettyFormatString | mincepy_gui/utils.py:86-93 | with `m >= 3` a string that fits comes back whole; a longer one becomes its first `m-3` characters plus `...`, exactly `m` long |
| Utils.PrettyFormatIdempotent | mincepy_gui/utils.py:86-95 | on strings, formatting the output again changes nothing (bound absent, 0, or at least 3) |
| Utils.PrettyFormatNotIdempotentBelowThree | mincepy_gui/utils.py:92-93 | below 3 the negative slice lets a second pass shorten the text again |
| Utils.SliceDropEnds | mincepy_gui/utils.py:51 | `s[lo:-hi]` is the middle when it exists and empty otherwise |
| Utils.ParseUuid | mincepy_gui/utils.py:51 | `uuid.UUID(text)`: every `urn:` and `uuid:` removed, braces stripped, dashes removed, then 32 characters that `int(_, 16)` reads; it gives a canonical UUID or ValueError |
| Utils.HexInt | mincepy_gui/utils.py:51 | `int(text, 16)` reads surrounding whitespace, a sign, a `0x` prefix and single underscores between digits; the digits read are hex and no more than the text; otherwise ValueError |
| Utils.ParseUuidUrn | mincepy_gui/utils.py:51 | `urn:uuid:` followed by canonical digits is read as that UUID |
| Utils.ParseUuidSigned | mincepy_gui/utils.py:51 | a `+` and 31 digits are read as the UUID with a leading zero digit |
| Utils.ParseUuidOfDigits | mincepy_gui/utils.py:51 | text that is canonical digits once `urn:` and `uuid:` are removed is read as that UUID |
| Utils.ParseObjectId | mincepy_gui/utils.py:56 | `ObjectId(text)` succeeds iff the text is 24 hex digits |
| Utils.EncodeDefault | mincepy_gui/utils.py:33-39 | a UUID or ObjectId is written as its repr; anything else raises TypeError |
| Utils.ToUuidAsWritten | mincepy_gui/utils.py:47-60 | non-strings and strings without either prefix pass unchanged; a `UUID(` text never raises (the UUID read from `[6:-2]`, or the text kept); an `ObjectId(` text becomes an ObjectId exactly when `[6:-2]` is 24 hex digits, and otherwise raises InvalidId |
| Utils.ToUuid | mincepy_gui/utils.py:47-60 | the same hook with the ObjectId slice `[10:-2]`: an `ObjectId(` text becomes an ObjectId exactly when that slice is 24 hex digits and otherwise still raises InvalidId, which `except ValueError` does not catch |
| Utils.UuidRoundTrip | mincepy_gui/utils.py:31-52 | a UUID the encoder wrote is decoded back to the same UUID, by both hooks |
| Utils.ObjectIdNoRoundTripAsWritten | mincepy_gui/utils.py:37-58 | as written, no encoded ObjectId is read back: the decoder raises |
| Utils.ObjectIdRoundTrip | mincepy_gui/utils.py:37-58 | with the corrected slice an encoded ObjectId decodes to itself |
| Utils.DecodeTree | mincepy_gui/utils.py:44-62 | `tree.transform(to_uuid, decoded)` with the hook chosen (`AsWritten` is lines 47-60 as written, `Corrected` the fixed slice): applied leaf by leaf, list lengths and dict keys kept, a raising leaf raising the whole |
| Utils.DecodePlainString | mincepy_gui/utils.py:47-60 | text with neither prefix decodes to itself, under both hooks |
| Utils.EncodeTree | mincepy_gui/utils.py:31-39 | encoding keeps list lengths and dict keys |
| Utils.EncodeDecodeTree | mincepy_gui/utils.py:31-62 | encoding an encodable query and decoding it gives the query back: always with the corrected hook, and with the hook as written when the query holds no ObjectId |
| Utils.EncodeDecodeTreeRaisesAsWritten | mincepy_gui/utils.py:44-62 | as written, decoding an encoded query that holds an ObjectId anywhere raises |
| Columns.Column.Plain | mincepy_gui/columns.py:19-22 | a plain column keeps its name, formatter and tooltip |
| Columns.Column.Data | mincepy_gui/columns.py:36-46 | a data column's path is the given one, or `[name]` when that is empty |
| Columns.Column.TypeColumn | mincepy_gui/columns.py:76-77 | a type column is a data column on `type_id` with the default formatter |
| Columns.Column.Path | mincepy_gui/columns.py:42-46 | a data column's path is never empty |
| Columns.Column.BaseData | mincepy_gui/columns.py:24-30 | the tooltip under the tooltip role, nothing under any other role |
| Columns.Column.PathValue | mincepy_gui/columns.py:48-56 | a found value is attribute `path[0]` followed along the rest of the path; a KeyError or IndexError gives None; other failures raise TypeError or AttributeError |
| Columns.Column.DataColumnData | mincepy_gui/columns.py:48-71 | roles other than data and display never raise; the font role is italic iff `path[0]` is a record field |
| Columns.Column.CellData | mincepy_gui/columns.py:79-96 | plain columns answer only tooltips; a type column shows the resolved class, and falls back to the data column without a historian or for an unknown id |
| Columns.DisplayFormatsData | mincepy_gui/columns.py:58-62 | the display role is the formatter applied to the data-role value; both roles fail alike |
| Columns.StateColumnData | mincepy_gui/columns.py:48-59 | a column on `('state', k)` shows the entry `k`, shows None when a dict state lacks `k`, and raises TypeError on a non-dict state |
| Columns.StandardColumns.constructor | mincepy_gui/columns.py:99-103 | the five predefined columns: names, paths, tooltips, default formatter, distinct objects |
| Columns.StandardColumns.Defaults | mincepy_gui/entry_table.py:93-95 | the default columns are type, creation time, modification time and version, in that order |
| EntryTable.Taken | mincepy_gui/entry_table.py:110-116 | one fetch takes `min(batch_size, left)` records, none for a non-positive batch size |
| EntryTable.Fetch | mincepy_gui/entry_table.py:105-124 | `fetchMore` on values: no source means no change; otherwise at most `batch_size` records go after the rows in source order, and the source is dropped when it ran out |
| EntryTable.FetchUntilExhausted | mincepy_gui/entry_table.py:105-136 | from an empty table and N records: `batch_size*j` rows before fetch `j` while the source lasts; the last fetch leaves all N rows in order and no source |
| EntryTable.DictKeysMember | mincepy_gui/entry_table.py:279-283 | a key is collected iff some row's dict state has it |
| EntryTable.StateColumnKeysMember | mincepy_gui/entry_table.py:285-289 | a key counts as shown iff some column is a data column on `('state', key)` |
| EntryTable.EntryTableModel.constructor | mincepy_gui/entry_table.py:97-100 | a new table has no rows, no source and the four default columns |
| EntryTable.EntryTableModel.GetRecord | mincepy_gui/entry_table.py:38-42 | None exactly outside `[0, len(records))`, otherwise the row-th record |
| EntryTable.EntryTableModel.HeaderData | mincepy_gui/entry_table.py:44-58 | display role only: column names across the top, `str(row)` down the side, None out of range |
| EntryTable.EntryTableModel.Data | mincepy_gui/entry_table.py:66-77 | nothing outside the table, else what the column shows for the row |
| EntryTable.EntryTableModel.JoinedPath | mincepy_gui/entry_table.py:87 | joining a path succeeds iff every step is a string, else TypeError; the result is `'.'.join` (`Utils.Join`) of the step names |
| EntryTable.EntryTableModel.Sort | mincepy_gui/entry_table.py:79-87 | a request only for a data column inside the table, carrying its joined path and the order |
| EntryTable.EntryTableModel.SortAsWritten | mincepy_gui/entry_table.py:79-87 | as written: nothing for a column below 0 or past `len`; IndexError exactly at `column == len`; otherwise only TypeError from the path |
| EntryTable.EntryTableModel.FetchMore | mincepy_gui/entry_table.py:105-124 | the rows and source become `Fetch` of the old ones; nothing else changes |
| EntryTable.EntryTableModel.SetSource | mincepy_gui/entry_table.py:126-136 | all rows go; the source and historian are installed; one batch is fetched when a source is given |
| EntryTable.EntryTableModel.ResetSource | mincepy_gui/entry_table.py:130-134 | no rows remain; the new source and historian are in place; the columns and batch size stay |
| EntryTable.EntryTableModel.AppendColumns | mincepy_gui/entry_table.py:138-142 | the columns go at the end, in argument order |
| EntryTable.EntryTableModel.RemoveColumns | mincepy_gui/entry_table.py:144-149 | each column's first occurrence is taken out in turn; an absent column fails, keeping the earlier removals |
| EntryTable.EntryTableModel.ClearColumns | mincepy_gui/entry_table.py:155-158 | no columns remain |
| EntryTable.EntryTableModel.SetColumns | mincepy_gui/entry_table.py:151-153 | the columns become exactly the given ones |
| EntryTable.EntryTableModel.RemoveRecordsAsWritten | mincepy_gui/entry_table.py:160-171 | out of range or `count <= 0`: False and no change; otherwise deletes at shifting positions and raises when it runs off the end |
| EntryTable.EntryTableModel.RemoveRecords | mincepy_gui/entry_table.py:160-171 | removes exactly the records from `index` up to `min(len, index+count)`, iff the guard passes |
| EntryTable.EntryTableModel.RemoveRecord | mincepy_gui/entry_table.py:173-175 | a valid index removes exactly that record and keeps the others in order |
| EntryTable.EntryTableModel.Reset | mincepy_gui/entry_table.py:177-182 | no rows, the default columns, no source |
| EntryTable.RemoveRecordsSkips | mincepy_gui/entry_table.py:165-168 | removing two from the front of four keeps the 2nd and 4th; from index 1 of three it raises |
| EntryTable.RemoveOneAgrees | mincepy_gui/entry_table.py:173-175 | for one record the as-written loop and range removal agree |
| EntryTable.SortPastEndRaises | mincepy_gui/entry_table.py:80-83 | as written, `column == columnCount` passes the guard and raises IndexError |
| EntryTable.SortAgreesInside | mincepy_gui/entry_table.py:79-87 | for every other column index both sorts agree |
| EntryTable.AppendKeepsUnique | mincepy_gui/entry_table.py:291-295 | appending columns for new, distinct keys keeps one state column per key |
| EntryTable.ScanStep | mincepy_gui/entry_table.py:266-273 | deleting the matching record under the cursor, or stepping past a kept one, keeps the scan invariant |
| EntryTable.Group | mincepy_gui/entry_table.py:233-238 | an empty group is left out, a single item is unwrapped, and several stay a tuple |
| EntryTable.SelectedRows | mincepy_gui/entry_table.py:229-230 | the selected rows, each once, ascending |
| Seqs.IndexOf | mincepy_gui/entry_table.py:146 | `list.index`: the position of the first occurrence |
| Seqs.RemoveFirst | mincepy_gui/entry_table.py:146-148 | popping that position removes one copy of the element and nothing else |
| Seqs.RemoveEach | mincepy_gui/entry_table.py:145-149 | after removing every column in turn, the remaining multiset plus the removed ones is the original |
| Seqs.Filter | mincepy_gui/entry_table.py:262-274 | the elements that match, and every one of them |
| Seqs.FilterOut | mincepy_gui/entry_table.py:262-274 | the elements that do not match, and every one of them |
| Seqs.FilterAppend | mincepy_gui/entry_table.py:262-274 | filtering a concatenation filters each part, so the matching elements keep their order |
| Seqs.FilterOutAppend | mincepy_gui/entry_table.py:262-274 | the same for the elements that do not match: the survivors keep their order |
| Seqs.FilterOutShorter | mincepy_gui/entry_table.py:262-274 | something is removed iff some record matches, which is the result `remove_matching_records` reports |
| Seqs.RemoveEachFiltered | mincepy_gui/entry_table.py:262-274 | removing the matches one at a time leaves exactly the non-matching records, in order |
| Seqs.DeleteOne | mincepy_gui/entry_table.py:167-168 | one `del` at a valid index removes exactly that element |
| Seqs.SortedSet | mincepy_gui/entry_table.py:229-230 | `sorted(set(rows))`: strictly increasing, with exactly the selected rows |
| EntryTable.EntryTableController.constructor | mincepy_gui/entry_table.py:192-217 | the controller listens to its table |
| EntryTable.EntryTableController.HandleRowsInserted | mincepy_gui/entry_table.py:277-295 | each new key gets exactly one new `state.<key>` column at the end; existing columns are untouched; uniqueness is kept |
| EntryTable.EntryTableController.CollectKeys | mincepy_gui/entry_table.py:279-283 | the loop gathers exactly the keys of the rows' dict states |
| EntryTable.EntryTableController.UncoveredKeys | mincepy_gui/entry_table.py:285-289 | the loop drops exactly the keys that already have a state column |
| EntryTable.EntryTableController.NewStateColumns | mincepy_gui/entry_table.py:291-294 | one fresh `DataColumn('state.k', ('state', k))` for each key of the set and for nothing else, each key once, in the order the set yields them |
| EntryTable.EntryTableController.HandleRowsAboutToBeRemoved | mincepy_gui/entry_table.py:298-322 | drops exactly the state columns of keys only the leaving rows have; a non-dict remaining state raises and leaves the columns |
| EntryTable.EntryTableController.GoneKeys | mincepy_gui/entry_table.py:301-312 | the keys of the leaving rows that no remaining row has; it raises only if the scan reaches a remaining row whose state is not a dict, and always succeeds when every remaining state is a dict |
| EntryTable.DropDoomedFiltersOut | mincepy_gui/entry_table.py:314-320 | dropping the state columns on doomed keys is filtering them out of the columns, in order |
| EntryTable.DropDoomedKeepsUnique | mincepy_gui/entry_table.py:314-320 | dropping the doomed columns keeps only columns that were there, and keeps one state column per key |
| EntryTable.EntryTableController.FetchMore | mincepy_gui/entry_table.py:105-124 | with the handler wired in: the old columns stay in front, and after them come only state columns for keys of the fetched rows that no old column showed; every fetched key then has a column, and one column per key is kept |
| EntryTable.EntryTableController.SetSource | mincepy_gui/entry_table.py:126-136 | with the handlers wired in: the rows become the first batch of the new source (none without one); the state columns of every key the old rows had go, the rest keep their order, and after them come state columns only for the new rows' uncovered keys; every new key has a column and one column per key is kept |
| EntryTable.EntryTableController.RemoveRecord | mincepy_gui/entry_table.py:173-175 | exactly that row goes. First the handler (entry_table.py:298-312) scans the remaining rows. When the scan completes, the state columns of keys only the leaving row had are dropped (`DropDoomed` over `Gone`). When the scan meets a non-dict remaining state it raises, Qt swallows the exception, and the columns stay. The scan always completes when every remaining state is a dict. The columns only narrow, and one state column per key is kept |
| EntryTable.EntryTableController.RemoveMatchingRecords | mincepy_gui/entry_table.py:262-274 | exactly the matching records go, the rest keep their order, and the result says whether any matched; each deletion is `RemoveRecord`, handler included |
| EntryTable.EntryTableController.SelectedValues | mincepy_gui/entry_table.py:236 | one data-role value per selected cell, in selection order, or the first failure |
| EntryTable.EntryTableController.GetSelected | mincepy_gui/entry_table.py:224-240 | the records of the distinct sorted rows and the cells' values, grouped |
| EntryDetails.ItemStrings | mincepy_gui/entry_details.py:19-20 | one string per datum: single line and at most 300 long, apart from types and datetimes |
| EntryDetails.PyIndex | mincepy_gui/entry_details.py:235 | Python indexing: valid iff within `[-n, n)`, negative counts from the end |
| EntryDetails.Entry | mincepy_gui/entry_details.py:231-242 | sequence: `str(row)` and the element; mapping: the row-th entry in key order; anything else: TypeError |
| EntryDetails.ItemBuilder | mincepy_gui/entry_details.py:231-265 | fails exactly as the entry does, else the three columns key, short type name and child |
| EntryDetails.BuilderTotal | mincepy_gui/entry_details.py:231-240 | every row of a list, string or dict can be built |
| EntryDetails.LazyIffNested | mincepy_gui/entry_details.py:246-262 | a child is lazy iff it is a list or dict, or `obj_dict` works on a non-string; it then has as many children as that data; strings are leaves |
| EntryDetails.MappingRowsSorted | mincepy_gui/entry_details.py:238-240 | a mapping's children come in strictly ascending key order, and every key appears |
| EntryDetails.SequenceRowsKeyed | mincepy_gui/entry_details.py:232-235 | a sequence's row-th child is keyed `str(row)` and holds the row-th element |
| EntryDetails.TreeItem.Leaf | mincepy_gui/entry_details.py:68-70 | a data item starts with no children |
| EntryDetails.TreeItem.Lazy | mincepy_gui/entry_details.py:90-95 | a lazy item keeps its raw data, builder and fixed child count, with none built |
| EntryDetails.TreeItem.DataAt | mincepy_gui/entry_details.py:23-28 | the datum, or None outside `[0, column_count)` |
| EntryDetails.TreeItem.StringAt | mincepy_gui/entry_details.py:30-35 | the datum's string, or None outside `[0, column_count)` |
| EntryDetails.TreeItem.AppendChild | mincepy_gui/entry_details.py:72-73 | the child goes last; the count grows by one |
| EntryDetails.TreeItem.Child | mincepy_gui/entry_details.py:100-111 | None outside the fixed count; the first call builds and caches, later calls give the same item; the raw data and builder go with the last row |
| EntryDetails.TreeItem.Cache | mincepy_gui/entry_details.py:104-109 | the cache grows by the row; the raw data and builder are dropped exactly when every row is built |
| EntryDetails.TreeItem.NewChild | mincepy_gui/entry_details.py:259-265 | a lazy item over nested data, or a leaf |
| EntryDetails.TreeItem.ChildRow | mincepy_gui/entry_details.py:113-117 | the list index, or the row built under, else ValueError |
| EntryDetails.TreeItem.Row | mincepy_gui/entry_details.py:37-42 | 0 for the root, else the row the parent has this item under |
| EntryDetails.RootDict | mincepy_gui/entry_details.py:216-218 | `{'record': fields}`, plus `'obj'` when an object is given |
| EntryDetails.RootRows | mincepy_gui/entry_details.py:208-221 | the root has 1 or 2 rows; `obj` (if given) comes first and shows the object; `record` comes last |
| EntryDetails.EntryDetailsModel.constructor | mincepy_gui/entry_details.py:125-128 | an empty root with the headers, no record |
| EntryDetails.EntryDetailsModel.HeaderData | mincepy_gui/entry_details.py:199-206 | horizontal display headers come from the root, else None |
| EntryDetails.EntryDetailsModel.SetRecord | mincepy_gui/entry_details.py:208-222 | no record: an empty root; a record: a lazy root over the root dict, with nothing built yet |
| EntryDetails.EntryDetailsModel.Reset | mincepy_gui/entry_details.py:224-229 | acts only when a record is set |
| Db.DeletedCount | mincepy_gui/db.py:36-39 | the ids deleted in order before the first one the store cannot find |
| Db.DeletionAsWritten | mincepy_gui/db.py:32-42 | with no historian, AttributeError; otherwise the deleted prefix is announced, and on failure the store is rolled back |
| Db.Deletion | mincepy_gui/db.py:32-42 | the same store change and result, announcing all the ids on success and nothing on rollback |
| Db.DeleteAnnouncesOnlyDeleted | mincepy_gui/db.py:32-42 | announced ids are gone from the store afterwards |
| Db.DeleteAnnouncesRolledBack | mincepy_gui/db.py:35-42 | as written, a failing delete announces an id the store still holds |
| Db.DatabaseModel.constructor | mincepy_gui/db.py:16-18 | a new model has no historian |
| Db.DatabaseModel.SetHistorian | mincepy_gui/db.py:28-30 | stores the historian and emits `historian_changed` with it |
| Db.DatabaseModel.DeleteLoop | mincepy_gui/db.py:36-39 | the loop deletes the ids in argument order up to the first failure |
| Db.DatabaseModel.DeleteAsWritten | mincepy_gui/db.py:32-42 | store, result and events follow `DeletionAsWritten` |
| Db.DatabaseModel.Delete | mincepy_gui/db.py:32-42 | store, result and events follow `Deletion` |
| Db.DatabaseController.DeleteObjects | mincepy_gui/db.py:89-90 | forwards the ids unchanged to the model's delete as written: store, result and announcement follow `DeletionAsWritten`, so a failing delete has announced the ids deleted before it |
| Query.Get | mincepy_gui/query.py:77-78 | `query.get(key, None)` |
| Query.Merge | mincepy_gui/query.py:64-67 | copy and update: the keys of both; the update's values win |
| Query.MergeIdempotent | mincepy_gui/query.py:64-67 | repeating an update changes nothing |
| Query.FlattenAppend | mincepy_gui/query.py:161-170 | one more batch extends the concatenation by that batch |
| Query.QueryModel.constructor | mincepy_gui/query.py:24-42 | the query is `{'version': -1}`, so show-current holds; there are no results |
| Query.QueryModel.RowCount | mincepy_gui/query.py:115-119 | 0 while results are None, else their length |
| Query.QueryModel.UpdateResults | mincepy_gui/query.py:140-148 | empty results; the query job is submitted when a historian is connected |
| Query.QueryModel.InvalidateResults | mincepy_gui/query.py:150-154 | a reset, then empty results and the submission |
| Query.QueryModel.SetHistorian | mincepy_gui/query.py:38-39 | a new historian invalidates the results |
| Query.QueryModel.SetQuery | mincepy_gui/query.py:55-62 | an equal query changes and emits nothing; otherwise the query is replaced, `query_changed` fires once, and the results are invalidated |
| Query.QueryModel.UpdateQuery | mincepy_gui/query.py:64-67 | `set_query` of the merge, so an update that changes nothing emits nothing |
| Query.QueryModel.SetTypeRestriction | mincepy_gui/query.py:69-78 | unchanged when equal; otherwise only `obj_type` changes, then `type_restriction_changed` |
| Query.QueryModel.SetSort | mincepy_gui/query.py:98-107 | unchanged when equal; otherwise only `sort` changes, then `sort_changed` |
| Query.QueryModel.SetShowCurrent | mincepy_gui/query.py:80-96 | afterwards show-current equals the argument; only `version` changes; `query_changed` fires on a change; results are kept |
| Query.QueryModel.PerformQuery | mincepy_gui/query.py:156-172 | the batches together are `find_records(query)` in order; all are full but the last, which is non-empty; no historian raises |
| Query.QueryModel.InjectResults | mincepy_gui/query.py:176-184 | the batch goes at the end; rowCount grows by its length; the inserted rows are announced; unset results raise |
| Query.QueryModel.InjectAll | mincepy_gui/query.py:176-184 | batches injected in order extend the results by their concatenation |
| Query.QueryModel.Reload | mincepy_gui/query.py:140-172 | invalidating and running the job leaves exactly the historian's records |
| Records.StateColumns | mincepy_gui/records.py:188-189 | `state.<key>` for each key of a dict state, and only those |
| Records.ColumnsOf | mincepy_gui/records.py:179-191 | as objects, the snapshot's attribute names; otherwise `state.<key>` per dict-state key, and nothing for other states |
| Records.UnionOk | mincepy_gui/records.py:88-90 | the union succeeds iff every row's columns do |
| Records.UnionCovers | mincepy_gui/records.py:88-90 | the union holds every row's columns, and each name comes from some row |
| Records.UnionIgnoresColumns | mincepy_gui/records.py:84-90 | resetting the columns first does not change what the rows bring |
| Records.UnionPrefixFails | mincepy_gui/records.py:238-239 | the first failing row fails the whole scan |
| Records.UnionStable | mincepy_gui/records.py:60-70 | filling the cache never changes the inferred columns |
| Records.SnapshotStable | mincepy_gui/records.py:60-70 | a cache that answers every lookup the same way gives every row the same snapshot |
| Records.KeyPath | mincepy_gui/records.py:199-204 | the dotted name's parts become one dict key each, in order |
| Records.StateViewColumns | mincepy_gui/records.py:186-189 | outside object mode every inferred column is a `state.` column |
| Records.StateViewDistinct | mincepy_gui/records.py:31-32 | the defaults plus sorted `state.` columns never repeat a name |
| Records.AppendNewColumns | mincepy_gui/records.py:244-257 | appending the sorted missing names keeps the old columns as a prefix (so the defaults stay first), keeps a repeat-free list repeat-free, and covers exactly the old columns and the union |
| Records.SplitPair | mincepy_gui/records.py:199 | a one-dot name splits into its two parts |
| Records.ColumnAt | mincepy_gui/records.py:195 | `columns[col]` for `0 <= col < len`, `columns[len + col]` for `-len <= col < 0`, and IndexError exactly outside that range |
| Records.ValueAt | mincepy_gui/records.py:193-226 | an empty name gives UNSET, and a column index out of range raises IndexError (the other branches are the lemmas below) |
| Records.ValueStable | mincepy_gui/records.py:60-70 | filling the cache never changes a cell's value |
| Records.StateColumnShowsEntry | mincepy_gui/records.py:193-216 | the column `state.k` of a row whose state holds `k` shows that entry, in both views |
| Records.MissingStateEntryUnset | mincepy_gui/records.py:202-207 | `state.k` on a row whose state is not a dict or lacks `k` shows UNSET: the failed walk is caught |
| Records.RecordFieldShown | mincepy_gui/records.py:199-216 | a record field's own column, other than the type id, shows that field |
| Records.TypeIdShown | mincepy_gui/records.py:209-216 | the type id column shows the historian's class for it, the type id itself when `get_obj_type` raises TypeError, and raises without a historian |
| Records.AttributeShown | mincepy_gui/records.py:218-226 | a name that is not a record field shows UNSET in the state view, and as objects the snapshot's attribute or UNSET, or the snapshot's failure |
| Records.ObjectColumnShowsAttribute | mincepy_gui/records.py:218-226 | as objects, a column inferred from a row's object shows that object's attribute |
| Records.ValuesAtCells | mincepy_gui/records.py:301 | one value per selected cell, in order; the list fails iff some cell does |
| Records.ValuesPrefixFails | mincepy_gui/records.py:301 | a failing cell fails the whole selection |
| Records.RecordAt | mincepy_gui/records.py:54-58 | None exactly outside `[0, rowCount)`, else that record |
| Records.EntriesTable.constructor | mincepy_gui/records.py:36-45 | object mode, the default columns, an empty cache |
| Records.EntriesTable.GetRecord | mincepy_gui/records.py:54-58 | `get_record` over the query's results |
| Records.EntriesTable.GetSnapshot | mincepy_gui/records.py:60-70 | the cached snapshot, or one load whose outcome (None on failure) is cached; answers never change afterwards |
| Records.EntriesTable.ColumnsFor | mincepy_gui/records.py:179-191 | `_get_columns_for` as `ColumnsOf` |
| Records.EntriesTable.CollectColumns | mincepy_gui/records.py:88-90 | the loop computes the union of the rows' columns |
| Records.EntriesTable.SetShowAsObjects | mincepy_gui/records.py:75-96 | no change for the same mode; otherwise the extra columns go and the sorted union for the new mode is appended; switching to the state view repeats no name |
| Records.EntriesTable.QueryRowsInserted | mincepy_gui/records.py:232-257 | exactly the new rows' names the table lacks are appended, sorted, without repeats |
| Records.EntriesTable.Invalidate | mincepy_gui/records.py:163-167 | the default columns and an empty cache |
| Records.EntriesTable.Refresh | mincepy_gui/records.py:98-100 | the query reloads and its reset reaches the table |
| Records.EntriesTable.InjectBatch | mincepy_gui/records.py:232-249 | a batch reaching the query is appended, and its rows' new names become columns |
| Records.EntriesTable.GetValue | mincepy_gui/records.py:193-226 | `_get_value` as `ValueAt` |
| Records.EntriesTable.Sort | mincepy_gui/records.py:141-167 | the query's sort becomes `{name: 1}` or `{name: -1}`; when that changes the query, its `modelReset` reaches the table (connected at line 39), which goes back to the default columns and an empty cache; otherwise nothing changes; a bad index raises |
| Records.EntriesTable.ActivateEntry | mincepy_gui/records.py:157-161 | emits the value exactly when it is neither None nor UNSET |
| Records.EntriesTableController.SelectedValues | mincepy_gui/records.py:301 | the loop computes the selection's values |
| Records.EntriesTableController.GetSelected | mincepy_gui/records.py:290-305 | the distinct rows' records sorted ascending and the cells' values; single items unwrapped; empty groups left out |
| Actioners.Name | mincepy_gui/actioners.py:20-22 | built-ins always have a name; a plug-in's is its attribute, if any |
| Actioners.BuiltinNamesDistinct | mincepy_gui/actioners.py:20-111 | the built-ins' names are pairwise different |
| Actioners.TextProbe | mincepy_gui/actioners.py:24-28 | `('View File',)` iff the object is a file, None otherwise |
| Actioners.CopyProbe | mincepy_gui/actioners.py:86-93 | always one action, `Copy Object ID` iff the object is a record |
| Actioners.DataRecordProbe | mincepy_gui/actioners.py:46-55 | `Delete` for one record, `Delete n` for an iterable of n records (even 0), None otherwise |
| Actioners.TestProbe | mincepy_gui/actioners.py:114-118 | its actions when enabled, None otherwise |
| Actioners.Builtins | mincepy_gui/actioners.py:125-126 | the four built-ins in a fixed order |
| Actioners.IdsToDelete | mincepy_gui/actioners.py:58-62 | one id for a record, each record's id in order for an iterable, AttributeError for a non-record item |
| Actioners.DeleteDo | mincepy_gui/actioners.py:57-74 | deletes only after confirmation, through the delete as written; NotFound becomes a warning shown after the ids deleted before it were announced; other errors propagate |
| Actioners.CopyText | mincepy_gui/actioners.py:95-101 | nothing without a clipboard; `str(obj_id)` for a record, `str(obj)` otherwise |
| Actioners.ViewTarget | mincepy_gui/actioners.py:30-34 | only the "View File" action on a file opens that file |
| Extend.Offers | mincepy_gui/extend.py:50-54 | one actioner's `(action, actioner)` pairs in its own order; none when it gives None |
| Extend.AllOffersLength | mincepy_gui/extend.py:47-56 | the number of pairs is the sum of the actions offered |
| Extend.OffersSnoc | mincepy_gui/extend.py:44-56 | registering one more actioner appends its offers |
| Extend.AllOffersAppend | mincepy_gui/extend.py:47-56 | probing two lists one after the other is probing them joined |
| Extend.AllOffersFrom | mincepy_gui/extend.py:47-56 | every pair is an action its registered actioner offers |
| Extend.SilentAddsNothing | mincepy_gui/extend.py:50-54 | an actioner giving None or nothing adds no pair |
| Extend.MatchingMembers | mincepy_gui/extend.py:58-69 | exactly the registered actioners passing the type and name criteria are given |
| Extend.MatchingSnoc | mincepy_gui/extend.py:60-67 | one more actioner is appended to the result iff it passes both criteria |
| Extend.MatchingAll | mincepy_gui/extend.py:58-69 | with no criterion, all actioners in order |
| Extend.BuiltinByName | mincepy_gui/extend.py:58-69 | among the built-ins, each name finds only its own actioner |
| Extend.BuiltinsOnRecord | mincepy_gui/actioners.py:86-126 | on a record the built-ins offer copying its id, then deleting it |
| Extend.ActionManager.constructor | mincepy_gui/extend.py:38-39 | no actioner registered |
| Extend.ActionManager.Register | mincepy_gui/extend.py:44-45 | the actioner goes last |
| Extend.ActionManager.LoadPlugins | mincepy_gui/extend.py:41-42 | the discovered actioners go last, in discovery order |
| Extend.ActionManager.Probe | mincepy_gui/extend.py:47-56 | the loop gives `AllOffers` in registration order |
| Extend.ActionManager.GetActioners | mincepy_gui/extend.py:58-69 | the loop gives the ordered matching subsequence |
| Executors.BlockingAtMostRunning | mincepy_gui/executors.py:45-52 | there are never more blocking tasks than pending ones |
| Executors.BlockingAfterSubmit | mincepy_gui/executors.py:33-36 | a new task joins the blocking ones iff it blocks |
| Executors.BlockingAfterDone | mincepy_gui/executors.py:49-51 | a finished task leaves the blocking ones iff it blocked |
| Executors.Executor.constructor | mincepy_gui/executors.py:15-20 | 0 running, 0 blocking, no tasks |
| Executors.Executor.Execute | mincepy_gui/executors.py:30-43 | running grows by 1 and blocking by 1 iff blocking; the new job is recorded as pending; `task_started` carries the new counts; the counts keep matching the pending jobs |
| Executors.Executor.TaskDone | mincepy_gui/executors.py:45-52 | both assertions hold; running drops by 1 and blocking by 1 iff the job blocked; the job leaves the pending ones; `task_ended` carries the new counts |

## Left out

- Qt mechanics are left out:
  - signal/slot wiring, shown only as the order in which the model calls slots;
  - `begin*/end*` notifications, shown only as events;
  - views, menus, palettes, cursors and the status bar;
  - `QueryController`'s JSON text box;
  - `EntryDetailsController` and the other controller modules.
- `pprint.pformat` is not modelled exactly. It is replaced by a one-line stand-in (`Utils.Render`).
- The datetime branch of `pretty_format` depends on the current year. It is a parameter-free stand-in (`Utils.TimeString`).
- `utils.obj_dict` reflects over an object's attributes. It is an uninterpreted function (`EntryDetails.ObjDict`), supplied by the caller. Its `None` result models the `except TypeError` fallbacks at mincepy_gui/entry_details.py:255-258 and mincepy_gui/records.py:181-184. The source never takes that path: `obj_dict` (mincepy_gui/utils.py:14-27) catches every exception raised by an attribute read and always returns a dict. The callers stay correct when `obj_dict` never answers `None`.
- Store calls are fields of the `Historian` value, not modelled code:
  - `find_records`
  - `load_snapshot`
  - `get_obj_type`
  - `delete` and `transaction`
- Concurrency is left out: the thread pool, worker-thread callbacks, and a done-callback racing `execute`. The executor is modelled as sequential counter bookkeeping. The query job the model submits is an event; `Query.QueryModel.Reload` runs it to completion.
- Stevedore plug-in discovery is a parameter of `LoadPlugins`.
- `isinstance(actioner, type)` in `get_actioners` is a predicate parameter.
- The probe `context` is ignored by every built-in, so it is not modelled.
- The confirmation dialog of `DataRecordActioner.do` is a boolean parameter.
- The warning dialog is the `NotFoundWarning` outcome.
- Clipboard access is a boolean parameter, and `str` of a non-value subject is a function parameter.
- Writing a file to a temporary folder and opening it (`TextActioner.do`, `utils.open_file`) are OS calls. The model gives only the file chosen.
- `TestActioner.do` only prints, so it is not modelled.
- Query dictionaries are values. In-place aliasing of the dict passed to `set_query` is lost: in the source, a later `set_show_current` mutates that same dict.
- `records.py`/`models.py` `EntriesTable.headerData` and the display, font and tooltip roles of `data` are not modelled. The data role is `GetValue`.
- `QueryModel.headerData`/`data` are not modelled.
- `EntryDetails.index/parent/rowCount/data` are not modelled. They are Qt index plumbing over the tree items, whose accessors are modelled.
- `EntryTableController.handle_copy` and the context-menu handlers are left out.
- `common.default_executor` is left out: it is a synchronous wrapper around a foreign exception-capturing helper.
- Records.EntriesTable.SetShowAsObjects: no repeated names is proved only for a switch to the state view. In object mode an attribute named like a default column is appended again, as in the source.
- EntryTable.EntryTableController.RemoveMatchingRecords: its contract states the records, not the columns. Each deletion goes through `RemoveRecord`, whose contract states what happens to the columns for that one row.
- Records.ValueAt: its own contract states only the empty-name and bad-index cases. The record-field, type-id, failed-walk and attribute branches are stated by the lemmas `StateColumnShowsEntry`, `MissingStateEntryUnset`, `RecordFieldShown`, `TypeIdShown`, `AttributeShown` and `ObjectColumnShowsAttribute`.
- Python's set iteration order depends on hashing. `NewStateColumns` takes the new keys in an order it does not pin down, so the order of the appended state columns is left open.
- mincepy's `DataRecord` is not part of this model. Its eight fields are the six the source reads by name (`obj_id`, `type_id`, `creation_time`, `snapshot_time`, `version`, `state`) and the two the tests set (`snapshot_hash`, `state_types`, test/test_entry_table.py:16). The source also reads the `snapshot_id` property (records.py:61, records.py:173, entry_details.py:332), modelled as `Record.SnapshotId()`, and `_asdict()`, modelled as `Values.AsDict`.
- Values.Attr: `getattr` of a namedtuple method name (`count`, `index`, `_asdict`, `_replace`) gives a bound method in Python; the model has no such values and gives AttributeError. No column the core creates names one.
- Utils.ParseUuid: `int()` also accepts non-ASCII whitespace and digits after converting them to ASCII; the model reads ASCII only.
- Integers are unbounded, as Python's are.
- Strings are sequences of characters. Python's `str` order is code-point order, and that is what `StrLeq` uses.

## Findings

| source | as written | input that shows it | evidently intended | confidence | as-written member | corrected member |
|---|---|---|---|---|---|---|
| mincepy_gui/utils.py:54-58 | the ObjectId branch slices `entry[6:-2]`, but the prefix `ObjectId('` is 10 characters | `"ObjectId('0123456789abcdef01234567')"` leaves `"Id('0123…567"` to parse, so bson raises InvalidId, which `except ValueError` does not catch | slice `[10:-2]`, so an encoded ObjectId decodes back | high (not executed) | Utils.ToUuidAsWritten, Utils.ObjectIdNoRoundTripAsWritten, Utils.EncodeDecodeTreeRaisesAsWritten | Utils.ToUuid, Utils.ObjectIdRoundTrip, Utils.EncodeDecodeTree |
| mincepy_gui/entry_table.py:80 | the guard `column > len(self._columns)` lets `column == len` through | `sort(columnCount, order)` raises IndexError at line 83 | `column >= len(...)`, returning quietly | high (not executed) | EntryTable.EntryTableModel.SortAsWritten, EntryTable.SortPastEndRaises | EntryTable.EntryTableModel.Sort, EntryTable.SortAgreesInside |
| mincepy_gui/entry_table.py:167-168 | `del self._records[i]` for `i` in `range(index, end)` deletes at shifting positions | `remove_records(0, 2)` on `[a, b, c, d]` leaves `[b, d]`; `remove_records(1, 2)` on `[a, b, c]` raises IndexError | remove the contiguous range `index .. end-1` | high (not executed) | EntryTable.EntryTableModel.RemoveRecordsAsWritten, EntryTable.RemoveRecordsSkips | EntryTable.EntryTableModel.RemoveRecords, EntryTable.RemoveOneAgrees |
| mincepy_gui/db.py:40-42 | the `finally` announces the deleted ids even when a later delete raised and the transaction rolled back | store holds only `a`; `delete(a, b)` raises NotFound, rolls back, yet `objects_deleted([a])` is emitted while `a` still exists | announce only after the transaction commits | medium (not executed) | Db.DatabaseModel.DeleteAsWritten, Db.DeleteAnnouncesRolledBack | Db.DatabaseModel.Delete, Db.DeleteAnnouncesOnlyDeleted |
