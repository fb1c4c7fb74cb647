/**
 * Actioners: plug-ins that, given an object the user selected, offer named
 * actions (`probe`) and carry one out (`do`). The built-in ones copy to the
 * clipboard, open a stored file, delete data records, and offer whatever a
 * test sets up.
 */
module Actioners {
  import opened Values
  import Utils
  import Db

  /**
   * What an actioner is asked about: a plain value, a data record, a tuple
   * of things (a multi-item selection), or a stored file.
   */
  datatype Subject = Val(v: Value) | Rec(r: Record) | Items(items: seq<Subject>) | File(filename: string)

  /**
   * An actioner. The built-ins are constructors of their own; a plug-in
   * brings its `name` attribute (if any) and its probe.
   */
  datatype Actioner =
    | Copy
    | Text
    | DataRecord
    | Test(enabled: bool, actions: seq<string>)
    | Custom(pluginName: Option<string>, probe: Subject -> Option<seq<string>>)

  const VIEW_FILE := "View File"
  const DELETE := "Delete"
  const COPY := "Copy"
  const COPY_OBJECT_ID := "Copy Object ID"

  /** `getattr(actioner, 'name', None)`. */
  function Name(a: Actioner): (n: Option<string>)
    ensures a.Custom? ==> n == a.pluginName
    ensures !a.Custom? ==> n.Some?
  {
    match a
    case Copy => Some("copy-actioner")
    case Text => Some("text-actioner")
    case DataRecord => Some("data-record-actioner")
    case Test(_, _) => Some("test-actioner")
    case Custom(name, _) => name
  }

  /** The built-in actioners have different names. */
  lemma BuiltinNamesDistinct()
    ensures forall a, b :: a in Builtins() && b in Builtins() && Name(a) == Name(b) ==> a == b
  {
    BuiltinNamesDiffer();
  }

  /** The four built-in names, pair by pair. */
  lemma BuiltinNamesDiffer()
    ensures Name(Copy) != Name(Text) && Name(Copy) != Name(DataRecord) && Name(Copy) != Name(Test(false, []))
    ensures Name(Text) != Name(DataRecord) && Name(Text) != Name(Test(false, []))
    ensures Name(DataRecord) != Name(Test(false, []))
  {
    assert Name(Copy).value[0] == 'c' && Name(Text).value[0] == 't';
    assert Name(DataRecord).value[0] == 'd' && Name(Test(false, [])).value[..3] == "tes";
    assert Name(Text).value[..3] == "tex";
  }

  /** An iterable whose every item is a data record (`all` of nothing is true). */
  predicate AllRecords(s: Subject) {
    match s
    case Items(items) => forall i :: 0 <= i < |items| ==> items[i].Rec?
    case Val(v) => (v.Str? && v.s == []) || (v.Seq? && v.items == []) || (v.Map? && v.entries == map[])
    case _ => false
  }

  /** How many items an iterable subject has. */
  function Count(s: Subject): nat {
    match s
    case Items(items) => |items|
    case Val(v) => if v.Str? then |v.s| else if v.Seq? then |v.items| else if v.Map? then |v.entries| else 0
    case _ => 0
  }

  /** `probe(obj, context)`; the context is ignored by every built-in. */
  function Probe(a: Actioner, s: Subject): Option<seq<string>> {
    match a
    case Copy => Some(if s.Rec? then [COPY_OBJECT_ID] else [COPY])
    case Text => if s.File? then Some([VIEW_FILE]) else None
    case DataRecord =>
      if s.Rec? then Some([DELETE])
      else if AllRecords(s) then Some([DELETE + " " + NatToString(Count(s))])
      else None
    case Test(enabled, actions) => if enabled then Some(actions) else None
    case Custom(_, probe) => probe(s)
  }

  /** The text actioner offers to view exactly the stored files. */
  lemma TextProbe(s: Subject)
    ensures Probe(Text, s) == (if s.File? then Some([VIEW_FILE]) else None)
    ensures Probe(Text, s).Some? <==> s.File?
  {
  }

  /**
   * The copy actioner always offers one action: copying the object id of a
   * record, and copying anything else as it prints.
   */
  lemma CopyProbe(s: Subject)
    ensures Probe(Copy, s).Some? && |Probe(Copy, s).value| == 1
    ensures Probe(Copy, s).value[0] == COPY_OBJECT_ID <==> s.Rec?
  {
    assert COPY_OBJECT_ID != COPY;
  }

  /**
   * The record actioner offers "Delete" for one record and "Delete <n>" for
   * an iterable of n records (n may be 0), and nothing for anything else.
   */
  lemma DataRecordProbe(s: Subject)
    ensures Probe(DataRecord, s).Some? <==> s.Rec? || AllRecords(s)
    ensures s.Rec? ==> Probe(DataRecord, s) == Some([DELETE])
    ensures s.Items? && AllRecords(s) ==>
              Probe(DataRecord, s) == Some([DELETE + " " + NatToString(|s.items|)])
    ensures Probe(DataRecord, Items([])) == Some([DELETE + " 0"])
  {
    assert AllRecords(Items([])) && Count(Items([])) == 0;
    assert NatToString(0) == "0";
    assert DELETE + " " + "0" == DELETE + " 0";
  }

  /** The test actioner offers its actions when enabled and nothing otherwise. */
  lemma TestProbe(enabled: bool, actions: seq<string>, s: Subject)
    ensures Probe(Test(enabled, actions), s) == if enabled then Some(actions) else None
  {
  }

  /** `get_actioners()`: the built-ins, in this order, the test one disabled with no actions. */
  function Builtins(): (r: seq<Actioner>)
    ensures |r| == 4 && r[0] == Copy && r[1] == Text && r[2] == DataRecord && r[3] == Test(false, [])
  {
    [Copy, Text, DataRecord, Test(false, [])]
  }

  /** The ids `do` deletes: a record's, each record's of an iterable, none for anything else. */
  function IdsToDelete(s: Subject): (r: Result<seq<Value>>)
    ensures s.Rec? ==> r == Ok([s.r.objId])
    ensures s.Items? ==> (r.Ok? <==> AllRecords(s))
    ensures s.Items? && r.Ok? ==> |r.value| == |s.items| &&
                                  forall i :: 0 <= i < |s.items| ==> r.value[i] == s.items[i].r.objId
    ensures r.Err? ==> r.error == AttributeError
  {
    match s
    case Rec(rec) => Ok([rec.objId])
    case Items(items) =>
      if forall i :: 0 <= i < |items| ==> items[i].Rec? then
        Ok(seq(|items|, i requires 0 <= i < |items| && items[i].Rec? => items[i].r.objId))
      else Err(AttributeError)
    case Val(v) =>
      if v.Str? || v.Seq? || v.Map? then
        (if Count(s) == 0 then Ok([]) else Err(AttributeError))
      else Ok([])
    case File(_) => Ok([])
  }

  /** How the record actioner's `do` ended: cancelled at the confirmation, done, or with a "Not found" warning. */
  datatype DeleteReport = Cancelled | Deleted | NotFoundWarning

  /**
   * `DataRecordActioner.do`: collect the ids, and once the user confirms,
   * ask the database controller to delete them; a NotFound from the store
   * becomes a warning (shown after the ids deleted before it were
   * announced), any other failure is raised.
   */
  method DeleteDo(s: Subject, db: Db.DatabaseController, confirmed: bool) returns (r: Result<DeleteReport>)
    modifies db.model
    ensures IdsToDelete(s).Err? ==> r == Err(AttributeError) && unchanged(db.model)
    ensures IdsToDelete(s).Ok? && !confirmed ==> r == Ok(Cancelled) && unchanged(db.model)
    ensures IdsToDelete(s).Ok? && confirmed ==>
              var o := Db.DeletionAsWritten(old(db.model.historian), IdsToDelete(s).value);
              db.model.historian == o.historian &&
              db.model.events == old(db.model.events) + (if o.announced == [] then [] else [Db.ObjectsDeleted(o.announced)]) &&
              r == (if o.result.Ok? then Ok(Deleted)
                    else if o.result.error == NotFound then Ok(NotFoundWarning)
                    else Err(o.result.error))
  {
    var ids := IdsToDelete(s);
    if ids.Err? {
      return Err(ids.error);
    }
    if !confirmed {
      return Ok(Cancelled);
    }
    var deleted := db.DeleteObjects(ids.value);
    if deleted.Ok? {
      return Ok(Deleted);
    } else if deleted.error == NotFound {
      return Ok(NotFoundWarning);
    }
    return Err(deleted.error);
  }

  /**
   * `CopyActioner.do`: the text put on the clipboard, when there is one: a
   * record's object id, or the object as it prints (`str`, which is given
   * for things other than plain values).
   */
  function CopyText(s: Subject, hasClipboard: bool, str: Subject -> string): (text: Option<string>)
    ensures !hasClipboard <==> text.None?
    ensures hasClipboard && s.Rec? ==> text == Some(Utils.PyStr(s.r.objId))
    ensures hasClipboard && s.Val? ==> text == Some(Utils.PyStr(s.v))
  {
    if !hasClipboard then None
    else if s.Rec? then Some(Utils.PyStr(s.r.objId))
    else if s.Val? then Some(Utils.PyStr(s.v))
    else Some(str(s))
  }

  /** `TextActioner.do`: the stored file to write out and open, for the "View File" action only. */
  function ViewTarget(action: string, s: Subject): (name: Option<string>)
    ensures name.Some? <==> action == VIEW_FILE && s.File?
    ensures name.Some? ==> name.value == s.filename
  {
    if action == VIEW_FILE && s.File? then Some(s.filename) else None
  }
}
