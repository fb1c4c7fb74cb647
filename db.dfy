/**
 * The database model: the historian the GUI is connected to, and deleting
 * objects inside one store transaction while announcing what was deleted.
 */
module Db {
  import opened Values

  /** The signals of the database model. */
  datatype DbEvent = HistorianChanged(historian: Option<Historian>) | ObjectsDeleted(ids: seq<Value>)

  /**
   * How many of `ids`, taken in order, the store deletes before the first
   * one it cannot find (an id that is not live, or that this same run has
   * already deleted).
   */
  function DeletedCount(live: set<Value>, ids: seq<Value>): (n: nat)
    ensures n <= |ids|
    ensures forall i :: 0 <= i < n ==> ids[i] in live
    ensures forall i, j :: 0 <= i < j < n ==> ids[i] != ids[j]
    ensures n < |ids| ==> ids[n] !in live || ids[n] in ids[..n]
  {
    if ids == [] then 0
    else if ids[0] !in live then 0
    else
      var rest := DeletedCount(live - {ids[0]}, ids[1..]);
      assert forall i :: 0 <= i < rest ==> ids[1..][i] == ids[i + 1];
      assert rest < |ids| - 1 ==> ids[1..][..rest] == ids[1..rest + 1];
      1 + rest
  }

  /** What one `delete(*ids)` leaves: the store afterwards, the ids announced, and the outcome. */
  datatype DeleteOutcome = DeleteOutcome(historian: Option<Historian>, announced: seq<Value>, result: Result<()>)

  /**
   * `delete` as written: with no historian, AttributeError and nothing
   * announced. Otherwise the deletions run in one transaction; the first
   * id the store cannot find raises NotFound and rolls the transaction
   * back, yet the ids deleted before it are announced all the same.
   */
  function DeletionAsWritten(h: Option<Historian>, ids: seq<Value>): (o: DeleteOutcome)
    ensures h.None? ==> o == DeleteOutcome(h, [], Err(AttributeError))
    ensures h.Some? ==>
              var n := DeletedCount(h.value.live, ids);
              o.announced == ids[..n] &&
              (o.result.Ok? <==> n == |ids|) &&
              (o.result.Err? ==> o.result.error == NotFound && o.historian == h) &&
              (o.result.Ok? ==> o.historian == Some(h.value.(live := h.value.live - set i | i in ids)))
  {
    if h.None? then DeleteOutcome(h, [], Err(AttributeError))
    else
      var n := DeletedCount(h.value.live, ids);
      if n == |ids| then
        assert ids[..n] == ids;
        DeleteOutcome(Some(h.value.(live := h.value.live - set i | i in ids)), ids, Ok(()))
      else DeleteOutcome(h, ids[..n], Err(NotFound))
  }

  /** `delete` announcing only what the store kept deleted: nothing when the transaction rolled back. */
  function Deletion(h: Option<Historian>, ids: seq<Value>): (o: DeleteOutcome)
    ensures o.historian == DeletionAsWritten(h, ids).historian && o.result == DeletionAsWritten(h, ids).result
    ensures o.announced == if o.result.Ok? then ids else []
  {
    var w := DeletionAsWritten(h, ids);
    if w.result.Ok? then w else w.(announced := [])
  }

  /**
   * Whatever is announced is gone from the store afterwards, and nothing
   * still in the store is announced.
   */
  lemma DeleteAnnouncesOnlyDeleted(h: Option<Historian>, ids: seq<Value>)
    ensures var o := Deletion(h, ids);
            forall x :: x in o.announced ==> o.historian.Some? && x !in o.historian.value.live
    ensures var o := Deletion(h, ids);
            o.result.Ok? ==> h.Some? && forall x :: x in ids ==> x in h.value.live
  {
    var o := Deletion(h, ids);
    if o.result.Ok? {
      var n := DeletedCount(h.value.live, ids);
      forall x | x in ids ensures x in h.value.live {
        var i :| 0 <= i < |ids| && ids[i] == x;
      }
    }
  }

  /**
   * As written, a failing delete announces ids the rolled-back store still
   * holds: deleting `[a, b]` where only `a` is live announces `[a]`, and
   * `a` is still live.
   */
  lemma DeleteAnnouncesRolledBack(h: Historian, a: Value, b: Value)
    requires h.live == {a}
    requires b != a
    ensures var o := DeletionAsWritten(Some(h), [a, b]);
            o.result == Err(NotFound) && o.announced == [a] && o.historian == Some(h) && a in o.historian.value.live
  {
    assert DeletedCount(h.live - {a}, [b]) == 0;
    assert [a, b][1..] == [b];
    assert DeletedCount(h.live, [a, b]) == 1;
  }

  class DatabaseModel {
    var historian: Option<Historian>
    var events: seq<DbEvent>

    /** A new model has no historian. */
    constructor()
      ensures historian.None? && events == []
    {
      historian := None;
      events := [];
    }

    /** `set_historian(h)`: store it and emit `historian_changed(h)`. */
    method SetHistorian(h: Option<Historian>)
      modifies this
      ensures historian == h
      ensures events == old(events) + [HistorianChanged(h)]
    {
      historian := h;
      events := events + [HistorianChanged(h)];
    }

    /**
     * The loop of `delete(*ids)` inside its transaction: the ids are
     * deleted in order until the first one the store cannot find. It
     * gives back the ids deleted so far and the store as the transaction
     * would leave it on commit.
     */
    static method DeleteLoop(h: Historian, ids: seq<Value>) returns (deleted: seq<Value>, live: set<Value>, ok: bool)
      ensures deleted == ids[..DeletedCount(h.live, ids)]
      ensures ok <==> DeletedCount(h.live, ids) == |ids|
      ensures ok ==> live == h.live - set i | i in ids
    {
      deleted := [];
      live := h.live;
      ok := true;
      var k := 0;
      while k < |ids|
        invariant 0 <= k <= |ids|
        invariant deleted == ids[..k]
        invariant live <= h.live && forall x :: x in h.live ==> (x in live <==> x !in ids[..k])
        invariant DeletedCount(h.live, ids) == k + DeletedCount(live, ids[k..])
        decreases |ids| - k
      {
        var entry := ids[k];
        if entry !in live {
          ok := false;
          return;
        }
        CountStep(live, ids, k);
        PrefixStep(ids, k);
        live := live - {entry};
        deleted := deleted + [entry];
        k := k + 1;
      }
      assert ids[..k] == ids;
      assert live == h.live - set i | i in ids;
    }

    static lemma PrefixStep(ids: seq<Value>, k: nat)
      requires k < |ids|
      ensures ids[..k + 1] == ids[..k] + [ids[k]]
      ensures forall x :: x in ids[..k + 1] <==> x in ids[..k] || x == ids[k]
    {
      assert ids[..k + 1] == ids[..k] + [ids[k]];
    }

    /** A live id at position `k` counts once more than the ids after it. */
    static lemma CountStep(live: set<Value>, ids: seq<Value>, k: nat)
      requires k < |ids| && ids[k] in live
      ensures DeletedCount(live, ids[k..]) == 1 + DeletedCount(live - {ids[k]}, ids[k + 1..])
    {
      assert ids[k..][0] == ids[k] && ids[k..][1..] == ids[k + 1..];
    }

    /** `delete(*ids)` as written: the announcement sits in a `finally` and ignores the rollback. */
    method DeleteAsWritten(ids: seq<Value>) returns (r: Result<()>)
      modifies this
      ensures var o := DeletionAsWritten(old(historian), ids);
              historian == o.historian && r == o.result &&
              events == old(events) + (if o.announced == [] then [] else [ObjectsDeleted(o.announced)])
    {
      if historian.None? {
        return Err(AttributeError);
      }
      var deleted, live, ok := DeleteLoop(historian.value, ids);
      if ok {
        historian := Some(historian.value.(live := live));
        r := Ok(());
      } else {
        r := Err(NotFound);
      }
      if deleted != [] {
        events := events + [ObjectsDeleted(deleted)];
      }
    }

    /** `delete(*ids)`, announcing the ids only once the transaction has committed. */
    method Delete(ids: seq<Value>) returns (r: Result<()>)
      modifies this
      ensures var o := Deletion(old(historian), ids);
              historian == o.historian && r == o.result &&
              events == old(events) + (if o.announced == [] then [] else [ObjectsDeleted(o.announced)])
    {
      if historian.None? {
        return Err(AttributeError);
      }
      var deleted, live, ok := DeleteLoop(historian.value, ids);
      if ok {
        historian := Some(historian.value.(live := live));
        if deleted != [] {
          events := events + [ObjectsDeleted(deleted)];
        }
        r := Ok(());
      } else {
        r := Err(NotFound);
      }
    }
  }

  class DatabaseController {
    const model: DatabaseModel

    constructor(model: DatabaseModel)
      ensures this.model == model
    {
      this.model := model;
    }

    /**
     * `delete_objects(*ids)`: the ids go to the model's delete, as written,
     * unchanged; a failing delete has announced the ids it got through.
     */
    method DeleteObjects(ids: seq<Value>) returns (r: Result<()>)
      modifies model
      ensures var o := DeletionAsWritten(old(model.historian), ids);
              model.historian == o.historian && r == o.result &&
              model.events == old(model.events) + (if o.announced == [] then [] else [ObjectsDeleted(o.announced)])
    {
      r := model.DeleteAsWritten(ids);
    }
  }
}
