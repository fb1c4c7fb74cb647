/**
 * Python values as the GUI sees them: the schema-less state payload of a
 * stored record, the record itself, the errors Python code raises, the
 * lexicographic order of `str`, and `tree.get_by_path`.
 */
module Values {

  datatype Option<+T> = None | Some(value: T)

  /** The exceptions the modelled code raises or catches. */
  datatype Error = KeyError | IndexError | TypeError | AttributeError | ValueError | NotFound | InvalidId

  datatype Result<+T> = Ok(value: T) | Err(error: Error)

  /** `f` applied to each of `xs` in order; the first failure fails the lot. */
  function Collect<X, Y>(xs: seq<X>, f: X -> Result<Y>): Result<seq<Y>> {
    if xs == [] then Ok([])
    else
      match Collect(xs[..|xs| - 1], f)
      case Err(e) => Err(e)
      case Ok(ys) =>
        match f(xs[|xs| - 1])
        case Err(e) => Err(e)
        case Ok(y) => Ok(ys + [y])
  }

  /** Collecting succeeds with one result per element exactly when no element fails. */
  lemma {:induction false} CollectEach<X, Y>(xs: seq<X>, f: X -> Result<Y>)
    ensures var r := Collect(xs, f);
            r.Ok? ==> |r.value| == |xs| && forall i :: 0 <= i < |xs| ==> f(xs[i]) == Ok(r.value[i])
    ensures Collect(xs, f).Err? <==> exists i :: 0 <= i < |xs| && f(xs[i]).Err?
  {
    if xs != [] {
      var n := |xs| - 1;
      var init := xs[..n];
      CollectEach(init, f);
      assert forall i :: 0 <= i < n ==> init[i] == xs[i];
      if Collect(init, f).Err? {
        var i :| 0 <= i < n && f(init[i]).Err?;
        assert f(xs[i]).Err?;
      }
    }
  }

  /**
   * A Python value. `Obj` is a live object of some user class (its public
   * attributes are only reachable through an `obj_dict`-like function that
   * callers supply), `Type` a class object named by its qualified name,
   * `Time` a datetime, `Uuid` and `ObjectId` identifiers given by their
   * lower-case hexadecimal digits.
   */
  datatype Value =
    | Null
    | Int(i: int)
    | Str(s: string)
    | Seq(items: seq<Value>)
    | Map(entries: map<string, Value>)
    | Obj(cls: string, id: nat)
    | Type(qualname: string)
    | Time(stamp: int)
    | Uuid(hex: string)
    | ObjectId(hex: string)

  /**
   * A stored data record. The snapshot id is derived from the object id and
   * the version, as the store does.
   */
  datatype Record = Record(
    objId: Value,
    typeId: Value,
    creationTime: Value,
    snapshotTime: Value,
    version: int,
    state: Value,
    stateTypes: Value,
    snapshotHash: Value)
  {
    function SnapshotId(): Value {
      Seq([objId, Int(version)])
    }
  }

  /**
   * The parts of the store's historian the GUI calls: `get_obj_type` (known
   * type ids), `load_snapshot` (loadable snapshot ids), `delete` (ids of live
   * objects) and `find_records` (a function of the query document).
   */
  datatype Historian = Historian(
    types: map<Value, Value>,
    snapshots: map<Value, Value>,
    live: set<Value>,
    find: map<string, Value> -> seq<Record>)
  {
    /** `get_obj_type(type_id)`: the class, or TypeError for an unknown id. */
    function GetObjType(typeId: Value): (r: Result<Value>)
      ensures r.Ok? <==> typeId in types
      ensures r.Ok? ==> r.value == types[typeId]
      ensures r.Err? ==> r.error == TypeError
    {
      if typeId in types then Ok(types[typeId]) else Err(TypeError)
    }

    /** `load_snapshot(ref)`: the object, or TypeError when it cannot be loaded. */
    function LoadSnapshot(ref: Value): (r: Result<Value>)
      ensures r.Ok? <==> ref in snapshots
      ensures r.Ok? ==> r.value == snapshots[ref]
      ensures r.Err? ==> r.error == TypeError
    {
      if ref in snapshots then Ok(snapshots[ref]) else Err(TypeError)
    }
  }

  const OBJ_ID := "obj_id"
  const TYPE_ID := "type_id"
  const CREATION_TIME := "creation_time"
  const SNAPSHOT_TIME := "snapshot_time"
  const VERSION := "version"
  const STATE := "state"
  const STATE_TYPES := "state_types"
  const SNAPSHOT_HASH := "snapshot_hash"

  /** The record's field names (`DataRecord._fields`). */
  const RecordFields: seq<string> := [OBJ_ID, TYPE_ID, CREATION_TIME, VERSION, STATE, STATE_TYPES, SNAPSHOT_HASH, SNAPSHOT_TIME]

  predicate IsRecordField(name: string) {
    name in RecordFields
  }

  /** The field names are plain identifiers: not empty, and without a dot. */
  lemma RecordFieldUndotted(f: string)
    requires IsRecordField(f)
    ensures f != [] && '.' !in f
  {
    if f == OBJ_ID || f == TYPE_ID || f == CREATION_TIME || f == VERSION {
      assert f != [] && '.' !in f;
    } else {
      assert f == STATE || f == STATE_TYPES || f == SNAPSHOT_HASH || f == SNAPSHOT_TIME;
      assert f != [] && '.' !in f;
    }
  }

  /** `record._asdict()`. */
  function AsDict(r: Record): (d: map<string, Value>)
    ensures d.Keys == set f | f in RecordFields
    ensures d[STATE] == r.state && d[TYPE_ID] == r.typeId && d[OBJ_ID] == r.objId
  {
    map[OBJ_ID := r.objId, TYPE_ID := r.typeId, CREATION_TIME := r.creationTime,
        VERSION := Int(r.version), STATE := r.state, STATE_TYPES := r.stateTypes,
        SNAPSHOT_HASH := r.snapshotHash, SNAPSHOT_TIME := r.snapshotTime]
  }

  /** The `snapshot_id` property of a record, which is not one of its fields. */
  const SNAPSHOT_ID := "snapshot_id"

  /**
   * `getattr(record, name)`: a field, the `snapshot_id` property, or
   * AttributeError.
   */
  function Attr(r: Record, name: string): (res: Result<Value>)
    ensures res.Ok? <==> IsRecordField(name) || name == SNAPSHOT_ID
    ensures res.Ok? && IsRecordField(name) ==> res.value == AsDict(r)[name]
    ensures name == SNAPSHOT_ID ==> res == Ok(r.SnapshotId())
    ensures res.Err? ==> res.error == AttributeError
  {
    var d := AsDict(r);
    if name in d then Ok(d[name])
    else if name == SNAPSHOT_ID then Ok(r.SnapshotId())
    else Err(AttributeError)
  }

  /** The state's keys when the state is a dict, and no keys otherwise. */
  function StateKeys(r: Record): set<string> {
    if r.state.Map? then r.state.entries.Keys else {}
  }

  // ---------------------------------------------------------------------------
  // Item access (`operator.getitem`) and `pytray.tree.get_by_path`

  /** One step of a path: a dict key or a sequence index. */
  datatype PathKey = Key(name: string) | Index(i: int)

  /** `v[k]`, with Python's negative indices for sequences and strings. */
  function GetItem(v: Value, k: PathKey): (r: Result<Value>)
    ensures v.Map? && k.Key? ==> (r.Ok? <==> k.name in v.entries)
    ensures v.Map? && k.Key? && k.name in v.entries ==> r == Ok(v.entries[k.name])
    ensures v.Seq? && k.Index? ==> (r.Ok? <==> -|v.items| <= k.i < |v.items|)
    ensures r.Err? && r.error == TypeError <==>
              !(v.Map? || ((v.Seq? || v.Str?) && k.Index?))
    ensures r.Err? ==> r.error in {KeyError, IndexError, TypeError}
  {
    match v
    case Map(m) =>
      (match k
       case Key(name) => if name in m then Ok(m[name]) else Err(KeyError)
       case Index(_) => Err(KeyError))
    case Seq(items) =>
      (match k
       case Index(i) =>
         if -|items| <= i < |items| then Ok(items[if i < 0 then i + |items| else i])
         else Err(IndexError)
       case Key(_) => Err(TypeError))
    case Str(s) =>
      (match k
       case Index(i) =>
         if -|s| <= i < |s| then Ok(Str([s[if i < 0 then i + |s| else i]]))
         else Err(IndexError)
       case Key(_) => Err(TypeError))
    case _ => Err(TypeError)
  }

  /** Descend through `path` one item at a time; the first failure is the result. */
  function GetByPath(v: Value, path: seq<PathKey>): (r: Result<Value>)
    ensures r.Err? ==> r.error in {KeyError, IndexError, TypeError}
    decreases |path|
  {
    if path == [] then Ok(v)
    else
      match GetItem(v, path[0])
      case Ok(child) => GetByPath(child, path[1..])
      case Err(e) => Err(e)
  }

  /** Following a path and then its continuation is following the joined path. */
  lemma {:induction false} GetByPathAppend(v: Value, p: seq<PathKey>, q: seq<PathKey>)
    requires GetByPath(v, p).Ok?
    ensures GetByPath(v, p + q) == GetByPath(GetByPath(v, p).value, q)
    decreases |p|
  {
    if p != [] {
      var child := GetItem(v, p[0]).value;
      assert GetByPath(v, p) == GetByPath(child, p[1..]);
      assert (p + q)[0] == p[0] && (p + q)[1..] == p[1..] + q;
      assert GetByPath(v, p + q) == GetByPath(child, p[1..] + q);
      GetByPathAppend(child, p[1..], q);
    } else {
      assert p + q == q;
    }
  }

  /** The dotted path of string keys `["state", k]` finds exactly the state entry `k`. */
  lemma StatePath(r: Record, k: string)
    ensures (GetByPath(Map(AsDict(r)), [Key(STATE), Key(k)]).Ok?
             <==> r.state.Map? && k in r.state.entries)
    ensures r.state.Map? && k in r.state.entries ==>
              GetByPath(Map(AsDict(r)), [Key(STATE), Key(k)]) == Ok(r.state.entries[k])
  {
    var d := Map(AsDict(r));
    assert STATE in d.entries;
    assert GetItem(d, Key(STATE)) == Ok(r.state);
    assert [Key(STATE), Key(k)][1..] == [Key(k)];
    assert GetByPath(d, [Key(STATE), Key(k)]) == GetByPath(r.state, [Key(k)]);
    assert [Key(k)][1..] == [];
    assert GetByPath(r.state, [Key(k)]) == (match GetItem(r.state, Key(k))
                                            case Ok(c) => GetByPath(c, [])
                                            case Err(e) => Err(e));
  }

  // ---------------------------------------------------------------------------
  // The order of Python `str` (code point by code point)

  /** `a <= b` for Python strings. */
  predicate StrLeq(a: string, b: string) {
    a == [] || (b != [] && (a[0] < b[0] || (a[0] == b[0] && StrLeq(a[1..], b[1..]))))
  }

  lemma {:induction false} StrLeqAntisymmetric(a: string, b: string)
    requires StrLeq(a, b) && StrLeq(b, a)
    ensures a == b
  {
    if a != [] && b != [] {
      StrLeqAntisymmetric(a[1..], b[1..]);
      assert a == [a[0]] + a[1..] && b == [b[0]] + b[1..];
    }
  }

  lemma StrLeqAntisymmetricAll()
    ensures forall a, b :: StrLeq(a, b) && StrLeq(b, a) ==> a == b
  {
    forall a, b | StrLeq(a, b) && StrLeq(b, a) ensures a == b {
      StrLeqAntisymmetric(a, b);
    }
  }

  lemma {:induction false} StrLeqTotal(a: string, b: string)
    ensures StrLeq(a, b) || StrLeq(b, a)
  {
    if a != [] && b != [] && a[0] == b[0] {
      StrLeqTotal(a[1..], b[1..]);
    }
  }

  lemma {:induction false} StrLeqTransitive(a: string, b: string, c: string)
    requires StrLeq(a, b) && StrLeq(b, c)
    ensures StrLeq(a, c)
  {
    if a != [] && b != [] && c != [] && a[0] == b[0] && b[0] == c[0] {
      StrLeqTransitive(a[1..], b[1..], c[1..]);
    }
  }

  predicate IsLeast(k: string, s: set<string>) {
    k in s && forall o :: o in s ==> StrLeq(k, o)
  }

  lemma {:induction false} LeastExists(s: set<string>)
    requires s != {}
    ensures exists k :: IsLeast(k, s)
    decreases |s|
  {
    var x :| x in s;
    if s == {x} {
      assert StrLeq(x, x) by { StrLeqTotal(x, x); }
      assert IsLeast(x, s);
    } else {
      var rest := s - {x};
      LeastExists(rest);
      var m :| IsLeast(m, rest);
      StrLeqTotal(m, x);
      if StrLeq(m, x) {
        assert IsLeast(m, s);
      } else {
        forall o | o in s ensures StrLeq(x, o) {
          if o != x { StrLeqTransitive(x, m, o); }
          else { StrLeqTotal(x, x); }
        }
        assert IsLeast(x, s);
      }
    }
  }

  /** The smallest string of a non-empty set. */
  function Least(s: set<string>): (k: string)
    requires s != {}
    ensures k in s && forall o :: o in s ==> StrLeq(k, o)
  {
    StrLeqAntisymmetricAll();
    LeastExists(s);
    var k :| IsLeast(k, s);
    k
  }

  /** Strictly increasing in the `str` order, hence without duplicates. */
  ghost predicate StrictlySorted(s: seq<string>) {
    forall i, j :: 0 <= i < j < |s| ==> StrLeq(s[i], s[j]) && s[i] != s[j]
  }

  /** `sorted(keys)`: the keys of a dict in ascending order. */
  function SortedKeys(keys: set<string>): (r: seq<string>)
    ensures |r| == |keys|
    ensures forall k :: k in r <==> k in keys
    ensures StrictlySorted(r)
    decreases keys
  {
    if keys == {} then []
    else
      var k := Least(keys);
      var rest := SortedKeys(keys - {k});
      assert forall j :: 0 <= j < |rest| ==> StrLeq(k, rest[j]) && k != rest[j];
      SortedCons(k, rest);
      [k] + rest
  }

  /** A key below and apart from every key of a sorted list keeps it sorted in front. */
  lemma SortedCons(k: string, rest: seq<string>)
    requires StrictlySorted(rest)
    requires forall j :: 0 <= j < |rest| ==> StrLeq(k, rest[j]) && k != rest[j]
    ensures StrictlySorted([k] + rest)
  {
    var r := [k] + rest;
    forall i, j | 0 <= i < j < |r|
      ensures StrLeq(r[i], r[j]) && r[i] != r[j]
    {
      assert r[j] == rest[j - 1];
      if i > 0 {
        assert r[i] == rest[i - 1];
      }
    }
  }

  // ---------------------------------------------------------------------------
  // `str(n)` for a natural number

  function DigitChar(d: nat): (c: char)
    requires d < 10
    ensures '0' <= c <= '9'
  {
    "0123456789"[d]
  }

  /** `str(n)`: the decimal digits of `n`, most significant first. */
  function NatToString(n: nat): (s: string)
    ensures |s| >= 1
    ensures forall i :: 0 <= i < |s| ==> '0' <= s[i] <= '9'
    decreases n
  {
    if n < 10 then [DigitChar(n)] else NatToString(n / 10) + [DigitChar(n % 10)]
  }

  /** `int(s)` for a string of decimal digits. */
  function ParseNat(s: string): nat
    requires forall i :: 0 <= i < |s| ==> '0' <= s[i] <= '9'
    decreases |s|
  {
    if s == [] then 0
    else ParseNat(s[..|s| - 1]) * 10 + ((s[|s| - 1] as int) - ('0' as int))
  }

  /** `int(str(n)) == n`, so distinct rows get distinct keys. */
  lemma {:induction false} ParseNatToString(n: nat)
    ensures ParseNat(NatToString(n)) == n
    decreases n
  {
    var s := NatToString(n);
    if n < 10 {
      assert s[..|s| - 1] == [];
    } else {
      ParseNatToString(n / 10);
      assert s[..|s| - 1] == NatToString(n / 10);
    }
  }

  lemma NatToStringInjective(m: nat, n: nat)
    requires NatToString(m) == NatToString(n)
    ensures m == n
  {
    ParseNatToString(m);
    ParseNatToString(n);
  }

  /** `str(i)` for any integer. */
  function IntToString(i: int): (s: string)
    ensures |s| >= 1
  {
    if i < 0 then "-" + NatToString(-i) else NatToString(i)
  }
}
