/**
 * The query model: the query document passed to the historian's
 * `find_records`, the results it loads in batches, and the signals it
 * emits when either changes.
 */
module Query {
  import opened Values
  import Db

  /** A query document: keyword arguments of `find_records`. */
  type Document = map<string, Value>

  const VERSION_KEY := "version"
  const OBJ_TYPE_KEY := "obj_type"
  const SORT_KEY := "sort"

  /** The batch size `_perform_query` uses by default. */
  const QUERY_BATCH_SIZE := 4

  /** The signals of the model, and the query job it hands to its executor. */
  datatype QueryEvent =
    | QueryChanged(query: Document)
    | TypeRestrictionChanged(restriction: Value)
    | SortChanged(sort: Value)
    | ModelReset
    | QuerySubmitted(query: Document)
    | RowsInserted(first: int, last: int)

  /** `query.get(key, None)`. */
  function Get(q: Document, key: string): (v: Value)
    ensures key !in q ==> v == Null
    ensures key in q ==> v == q[key]
  {
    if key in q then q[key] else Null
  }

  /** `new = q.copy(); new.update(u)`. */
  function Merge(q: Document, u: Document): (r: Document)
    ensures r.Keys == q.Keys + u.Keys
    ensures forall k :: k in u ==> r[k] == u[k]
    ensures forall k :: k in q && k !in u ==> r[k] == q[k]
  {
    q + u
  }

  /** A second identical update changes nothing. */
  lemma MergeIdempotent(q: Document, u: Document)
    ensures Merge(Merge(q, u), u) == Merge(q, u)
  {
  }

  /** `get_show_current()`: only the latest versions are asked for. */
  predicate ShowCurrent(q: Document) {
    Get(q, VERSION_KEY) == Int(-1)
  }

  /** The concatenation of the batches. */
  function Flatten(batches: seq<seq<Record>>): seq<Record> {
    if batches == [] then [] else Flatten(batches[..|batches| - 1]) + batches[|batches| - 1]
  }

  lemma FlattenAppend(batches: seq<seq<Record>>, b: seq<Record>)
    ensures Flatten(batches + [b]) == Flatten(batches) + b
  {
    assert (batches + [b])[..|batches|] == batches;
  }

  class QueryModel {
    const db: Db.DatabaseModel
    var query: Document
    var results: Option<seq<Record>>
    var events: seq<QueryEvent>

    /** A fresh model asks for current versions only: its query is `{'version': -1}`. */
    constructor(db: Db.DatabaseModel)
      ensures this.db == db
      ensures query == map[VERSION_KEY := Int(-1)] && ShowCurrent(query)
      ensures results.None?
      ensures events == [QueryChanged(map[VERSION_KEY := Int(-1)])]
    {
      this.db := db;
      query := map[];
      results := None;
      events := [];
      new;
      SetShowCurrent(true);
    }

    /** `rowCount()`: nothing while the results are unset. */
    function RowCount(): (n: nat)
      reads this
      ensures results.None? ==> n == 0
      ensures results.Some? ==> n == |results.value|
    {
      if results.None? then 0 else |results.value|
    }

    /**
     * `_update_results()`: empty results, and the query job is handed to
     * the executor when a historian is connected.
     */
    method UpdateResults()
      modifies this
      ensures results == Some([]) && query == old(query)
      ensures events == old(events) + if db.historian.Some? then [QuerySubmitted(query)] else []
    {
      results := Some([]);
      if db.historian.Some? {
        events := events + [QuerySubmitted(query)];
      }
    }

    /** `_invalidate_results()` (also `refresh()` and the reaction to a new historian). */
    method InvalidateResults()
      modifies this
      ensures results == Some([]) && query == old(query)
      ensures events == old(events) + [ModelReset] + if db.historian.Some? then [QuerySubmitted(query)] else []
    {
      events := events + [ModelReset];
      results := None;
      UpdateResults();
    }

    /** A new historian on the database model invalidates the results. */
    method SetHistorian(h: Option<Historian>)
      modifies this, db
      ensures db.historian == h && db.events == old(db.events) + [Db.HistorianChanged(h)]
      ensures query == old(query) && results == Some([])
      ensures events == old(events) + [ModelReset] + if h.Some? then [QuerySubmitted(query)] else []
    {
      db.SetHistorian(h);
      InvalidateResults();
    }

    /**
     * `set_query(q)`: nothing when `q` equals the query; otherwise the
     * query becomes `q`, `query_changed` fires once and the results are
     * invalidated.
     */
    method SetQuery(q: Document)
      modifies this
      ensures q == old(query) ==> query == old(query) && results == old(results) && events == old(events)
      ensures q != old(query) ==>
                query == q && results == Some([]) &&
                events == old(events) + [QueryChanged(q), ModelReset] +
                          if db.historian.Some? then [QuerySubmitted(q)] else []
    {
      if q == query {
        return;
      }
      query := q;
      events := events + [QueryChanged(q)];
      InvalidateResults();
    }

    /** `update_query(u)`: a shallow merge into a copy, then `set_query`. */
    method UpdateQuery(u: Document)
      modifies this
      ensures Merge(old(query), u) == old(query) ==> query == old(query) && results == old(results) && events == old(events)
      ensures Merge(old(query), u) != old(query) ==>
                query == Merge(old(query), u) && results == Some([]) &&
                events == old(events) + [QueryChanged(query), ModelReset] +
                          if db.historian.Some? then [QuerySubmitted(query)] else []
    {
      SetQuery(query + u);
    }

    /**
     * `set_type_restriction(t)`: nothing when it already is `t`; otherwise
     * `'obj_type'` becomes `t`, every other key is kept, and the change is
     * announced after the query change.
     */
    method SetTypeRestriction(t: Value)
      modifies this
      ensures t == Get(old(query), OBJ_TYPE_KEY) ==>
                query == old(query) && results == old(results) && events == old(events)
      ensures t != Get(old(query), OBJ_TYPE_KEY) ==>
                query == old(query)[OBJ_TYPE_KEY := t] && Get(query, OBJ_TYPE_KEY) == t &&
                results == Some([]) &&
                events == old(events) + [QueryChanged(query), ModelReset] +
                          (if db.historian.Some? then [QuerySubmitted(query)] else []) +
                          [TypeRestrictionChanged(t)]
    {
      if t == Get(query, OBJ_TYPE_KEY) {
        return;
      }
      assert query + map[OBJ_TYPE_KEY := t] == query[OBJ_TYPE_KEY := t];
      UpdateQuery(map[OBJ_TYPE_KEY := t]);
      events := events + [TypeRestrictionChanged(Get(query, OBJ_TYPE_KEY))];
    }

    /**
     * `set_sort(s)`: nothing when the sort already is `s`; otherwise
     * `'sort'` becomes `s`, every other key is kept, and the change is
     * announced after the query change.
     */
    method SetSort(s: Value)
      modifies this
      ensures s == Get(old(query), SORT_KEY) ==>
                query == old(query) && results == old(results) && events == old(events)
      ensures s != Get(old(query), SORT_KEY) ==>
                query == old(query)[SORT_KEY := s] && Get(query, SORT_KEY) == s &&
                results == Some([]) &&
                events == old(events) + [QueryChanged(query), ModelReset] +
                          (if db.historian.Some? then [QuerySubmitted(query)] else []) +
                          [SortChanged(s)]
    {
      if s == Get(query, SORT_KEY) {
        return;
      }
      assert query + map[SORT_KEY := s] == query[SORT_KEY := s];
      UpdateQuery(map[SORT_KEY := s]);
      events := events + [SortChanged(Get(query, SORT_KEY))];
    }

    /**
     * `set_show_current(show)`: nothing when it already holds; otherwise
     * `'version': -1` is added or removed, no other key changes,
     * `query_changed` fires, and the results are left as they are.
     */
    method SetShowCurrent(show: bool)
      modifies this
      ensures ShowCurrent(query) == show
      ensures ShowCurrent(old(query)) == show ==> query == old(query) && events == old(events)
      ensures ShowCurrent(old(query)) != show ==>
                query == (if show then old(query)[VERSION_KEY := Int(-1)] else old(query) - {VERSION_KEY}) &&
                events == old(events) + [QueryChanged(query)]
      ensures forall k :: k != VERSION_KEY ==> (k in query <==> k in old(query))
      ensures forall k :: k != VERSION_KEY && k in query ==> query[k] == old(query)[k]
      ensures results == old(results)
    {
      if ShowCurrent(query) == show {
        return;
      }
      if show {
        query := query[VERSION_KEY := Int(-1)];
      } else {
        query := query - {VERSION_KEY};
      }
      events := events + [QueryChanged(query)];
    }

    /**
     * `_perform_query(query, batch_size)`: the historian's records for the
     * query, in order, cut into batches of exactly `batch_size` and one last
     * shorter non-empty batch; the batches put together are the records.
     * Without a historian the call raises.
     */
    method PerformQuery(q: Document, batchSize: int) returns (r: Result<seq<seq<Record>>>)
      ensures db.historian.None? ==> r == Err(AttributeError)
      ensures db.historian.Some? ==> r.Ok?
      ensures r.Ok? ==>
                var batches := r.value;
                Flatten(batches) == db.historian.value.find(q) &&
                (forall i :: 0 <= i < |batches| ==> batches[i] != []) &&
                (forall i :: 0 <= i < |batches| - 1 ==> |batches[i]| == batchSize) &&
                (batchSize > 0 ==> forall i :: 0 <= i < |batches| ==> |batches[i]| <= batchSize) &&
                (batchSize <= 0 ==> |batches| <= 1)
    {
      if db.historian.None? {
        return Err(AttributeError);
      }
      var found := db.historian.value.find(q);
      var batches: seq<seq<Record>> := [];
      var batch: seq<Record> := [];
      for k := 0 to |found|
        invariant Flatten(batches) + batch == found[..k]
        invariant forall i :: 0 <= i < |batches| ==> |batches[i]| == batchSize && batches[i] != []
        invariant batchSize > 0 ==> |batch| < batchSize
        invariant batchSize <= 0 ==> batches == []
      {
        assert found[..k + 1] == found[..k] + [found[k]];
        batch := batch + [found[k]];
        if |batch| == batchSize {
          FlattenAppend(batches, batch);
          batches := batches + [batch];
          batch := [];
        }
      }
      assert found[..|found|] == found;
      if batch != [] {
        FlattenAppend(batches, batch);
        batches := batches + [batch];
      }
      return Ok(batches);
    }

    /**
     * `_inject_results(batch)`: the batch goes at the end of the results
     * and the inserted rows are announced. With unset results the call
     * raises TypeError, which the slot swallows, and nothing changes.
     */
    method InjectResults(batch: seq<Record>) returns (ok: bool)
      modifies this
      ensures ok <==> old(results).Some?
      ensures ok ==> results == Some(old(results).value + batch) && RowCount() == old(RowCount()) + |batch|
      ensures ok ==> events == old(events) + [RowsInserted(old(RowCount()), old(RowCount()) + |batch| - 1)]
      ensures !ok ==> results == old(results) && events == old(events)
      ensures query == old(query)
    {
      if results.None? {
        return false;
      }
      var first := |results.value|;
      events := events + [RowsInserted(first, first + |batch| - 1)];
      results := Some(results.value + batch);
      return true;
    }

    /** The batches of one query arriving in order: the results grow by their concatenation. */
    method InjectAll(batches: seq<seq<Record>>)
      requires results.Some?
      modifies this
      ensures results == Some(old(results).value + Flatten(batches))
      ensures query == old(query)
    {
      assert batches[..0] == [];
      assert old(results).value + [] == old(results).value;
      for i := 0 to |batches|
        invariant results == Some(old(results).value + Flatten(batches[..i]))
        invariant query == old(query)
      {
        assert batches[..i + 1] == batches[..i] + [batches[i]];
        FlattenAppend(batches[..i], batches[i]);
        ghost var before := results.value;
        var ok := InjectResults(batches[i]);
        assert results.value == before + batches[i];
        assert old(results).value + Flatten(batches[..i]) + batches[i] == old(results).value + Flatten(batches[..i + 1]);
      }
      assert batches[..|batches|] == batches;
    }

    /**
     * The submitted query job run to completion: after an invalidation the
     * results are exactly what the historian finds for the query.
     */
    method Reload()
      modifies this
      ensures query == old(query)
      ensures db.historian.Some? ==> results == Some(db.historian.value.find(query))
      ensures db.historian.None? ==> results == Some([])
    {
      InvalidateResults();
      var r := PerformQuery(query, QUERY_BATCH_SIZE);
      if r.Ok? {
        InjectAll(r.value);
        assert [] + Flatten(r.value) == Flatten(r.value);
      }
    }
  }
}
