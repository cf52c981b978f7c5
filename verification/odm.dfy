/**
  The document collection (odm/odm_collection.go): Save is a count, a clock reading and an upsert;
  what it keeps over a sequence of saves and deletes. A BSON document is a map of fields.
 */
module Odm {
  import opened Wrappers

  datatype Field = Int64(n: int) | Text(s: string) | Other(id: nat)

  type Doc = map<string, Field>

  type Store = map<string, Doc>

  datatype Result<+T> = Success(value: T) | Failure(error: Error)

  datatype Error = ConvertFailed | NilFilter | NoDocuments | DatabaseFailed

  /** The document that Save sends: the model's fields, the id, and one of the two time stamps. */
  function Stamped(model: Doc, id: string, exists_: bool, now: int): Doc {
    model["_id" := Text(id)][if exists_ then "updatedOn" else "createdOn" := Int64(now)]
  }

  /** UpdateOne with $set and upsert on the document with this id. */
  function Upserted(store: Store, id: string, d: Doc): Store {
    store[id := if id in store then store[id] + d else d]
  }

  /** Every document is stored under its own id. */
  predicate Keyed(store: Store) {
    forall id :: id in store ==> "_id" in store[id] && store[id]["_id"] == Text(id)
  }

  predicate Fits(d: Doc, filter: Doc) {
    forall f :: f in filter ==> f in d && d[f] == filter[f]
  }

  function IdFilter(id: string): Doc {
    map["_id" := Text(id)]
  }

  /** `exists` as Save sees it: a failing count reads as "no". */
  function Seen(store: Store, id: string, countFails: bool): bool {
    !countFails && id in store
  }

  function SavedStore(store: Store, id: string, model: Doc, countFails: bool, now: int): Store {
    Upserted(store, id, Stamped(model, id, Seen(store, id, countFails), now))
  }

  class OdmCollection {
    var store: Store

    constructor ()
      ensures store == map[]
    {
      store := map[];
    }

    method Exists(id: string, countFails: bool) returns (r: Result<bool>)
      ensures r == if countFails then Failure(DatabaseFailed) else Success(id in store)
    {
      if countFails {
        return Failure(DatabaseFailed);
      }
      var count := if id in store then 1 else 0;
      return Success(count > 0);
    }

    method Save(model: Option<Doc>, id: string, countFails: bool, now: int, updateFails: bool) returns (r: Result<()>)
      modifies this
      ensures model.None? ==> r == Failure(ConvertFailed) && store == old(store)
      ensures model.Some? && updateFails ==> r == Failure(DatabaseFailed) && store == old(store)
      ensures model.Some? && !updateFails ==>
        r == Success(()) && store == SavedStore(old(store), id, model.value, countFails, now)
    {
      if model == None {
        return Failure(ConvertFailed);
      }
      var doc := model.value;
      doc := doc["_id" := Text(id)];
      var found := Exists(id, countFails);
      if found.Success? && found.value {
        doc := doc["updatedOn" := Int64(now)];
      } else {
        doc := doc["createdOn" := Int64(now)];
      }
      if updateFails {
        return Failure(DatabaseFailed);
      }
      store := Upserted(store, id, doc);
      return Success(());
    }

    /** Some document that fits the filter, if there is one. */
    method FindOne(filter: Option<Doc>, findFails: bool) returns (r: Result<Doc>)
      ensures filter.None? ==> r == Failure(NilFilter)
      ensures filter.Some? && findFails ==> r == Failure(DatabaseFailed)
      ensures filter.Some? && !findFails ==>
        if exists id :: id in store && Fits(store[id], filter.value) then
          r.Success? && exists id :: id in store && Fits(store[id], filter.value) && r.value == store[id]
        else r == Failure(NoDocuments)
    {
      if filter == None {
        return Failure(NilFilter);
      }
      if findFails {
        return Failure(DatabaseFailed);
      }
      if id :| id in store.Keys && Fits(store[id], filter.value) {
        return Success(store[id]);
      }
      return Failure(NoDocuments);
    }

    /** With documents stored under their ids, the id filter finds exactly the document of that id. */
    method FindOneByID(id: string, findFails: bool) returns (r: Result<Doc>)
      requires Keyed(store)
      ensures r == if findFails then Failure(DatabaseFailed)
                   else if id in store then Success(store[id]) else Failure(NoDocuments)
    {
      r := FindOne(Some(IdFilter(id)), findFails);
      assert id in store ==> Fits(store[id], IdFilter(id));
      forall x | x in store && Fits(store[x], IdFilter(id)) ensures x == id {
        assert "_id" in IdFilter(id);
        assert store[x]["_id"] == Text(id);
      }
    }

    /** At most one document is removed, and only one that fits. */
    method DeleteOne(filter: Option<Doc>, deleteFails: bool) returns (r: Result<()>)
      modifies this
      ensures filter.None? ==> r == Failure(NilFilter) && store == old(store)
      ensures filter.Some? && deleteFails ==> r == Failure(DatabaseFailed) && store == old(store)
      ensures filter.Some? && !deleteFails ==> r == Success(())
      ensures filter.Some? && !deleteFails ==>
        if exists id :: id in old(store) && Fits(old(store)[id], filter.value) then
          exists id :: id in old(store) && Fits(old(store)[id], filter.value) && store == old(store) - {id}
        else store == old(store)
    {
      if filter == None {
        return Failure(NilFilter);
      }
      if deleteFails {
        return Failure(DatabaseFailed);
      }
      if id :| id in store.Keys && Fits(store[id], filter.value) {
        store := store - {id};
      }
      return Success(());
    }

    method DeleteByID(id: string, deleteFails: bool) returns (r: Result<()>)
      requires Keyed(store)
      modifies this
      ensures r == if deleteFails then Failure(DatabaseFailed) else Success(())
      ensures store == if deleteFails then old(store) else old(store) - {id}
    {
      forall x | x in store && Fits(store[x], IdFilter(id)) ensures x == id {
        assert "_id" in IdFilter(id);
        assert store[x]["_id"] == Text(id);
      }
      assert id in store ==> Fits(store[id], IdFilter(id));
      assert id !in store ==> store - {id} == store;
      r := DeleteOne(Some(IdFilter(id)), deleteFails);
    }
  }

  // ---------- sequences of saves and deletes ----------

  /** Operations whose writes succeed; a Save reads the clock at `now`, and its count may fail. */
  datatype Op = Save(id: string, model: Doc, now: int, countFails: bool) | Delete(id: string)

  function Applied(store: Store, op: Op): Store {
    match op
    case Save(id, model, now, countFails) => SavedStore(store, id, model, countFails, now)
    case Delete(id) => store - {id}
  }

  function After(ops: seq<Op>): Store {
    if ops == [] then map[] else Applied(After(ops[..|ops| - 1]), ops[|ops| - 1])
  }

  /** The saves of a document since it was last absent. */
  function History(ops: seq<Op>, id: string): seq<Op> {
    if ops == [] then []
    else
      var (h, op) := (History(ops[..|ops| - 1], id), ops[|ops| - 1]);
      if op.id != id then h else if op.Delete? then [] else h + [op]
  }

  const RESERVED: set<string> := {"_id", "createdOn", "updatedOn"}

  predicate NoStamps(model: Doc) {
    "createdOn" !in model && "updatedOn" !in model
  }

  predicate PlainModels(ops: seq<Op>) {
    forall i :: 0 <= i < |ops| && ops[i].Save? ==> NoStamps(ops[i].model)
  }

  predicate ClockMonotone(ops: seq<Op>) {
    forall i, j :: 0 <= i < j < |ops| && ops[i].Save? && ops[j].Save? ==> ops[i].now <= ops[j].now
  }

  /** The models laid over each other, later ones on top. */
  function Merged(h: seq<Op>): Doc {
    if h == [] then map[]
    else Merged(h[..|h| - 1]) + if h[|h| - 1].Save? then h[|h| - 1].model else map[]
  }

  predicate AllSaves(h: seq<Op>) {
    forall i :: 0 <= i < |h| ==> h[i].Save?
  }

  /** Save `i` of a history takes itself for the first one. */
  predicate Creates(h: seq<Op>, i: int)
    requires AllSaves(h)
  {
    0 <= i < |h| && (i == 0 || h[i].countFails)
  }

  /** The last save of a history that takes itself for the first one. */
  predicate LastCreates(h: seq<Op>, i: int)
    requires AllSaves(h)
  {
    Creates(h, i) && forall j :: i < j < |h| ==> !Creates(h, j)
  }

  /** The last save of a history that knows of an earlier one. */
  predicate LastUpdates(h: seq<Op>, i: int)
    requires AllSaves(h)
  {
    0 <= i < |h| && !Creates(h, i) && forall j :: i < j < |h| ==> Creates(h, j)
  }

  /** The stored document in terms of its history alone. */
  ghost predicate Reflects(d: Doc, id: string, h: seq<Op>)
    requires h != [] && AllSaves(h)
  {
    && "_id" in d && d["_id"] == Text(id)
    && (exists i :: LastCreates(h, i) && "createdOn" in d && d["createdOn"] == Int64(h[i].now))
    && (if "updatedOn" in d then exists i :: LastUpdates(h, i) && d["updatedOn"] == Int64(h[i].now)
        else forall i :: 0 <= i < |h| ==> Creates(h, i))
    && d - RESERVED == Merged(h) - RESERVED
  }

  lemma {:induction false} HistorySaves(ops: seq<Op>, id: string)
    ensures forall i :: 0 <= i < |History(ops, id)| ==> History(ops, id)[i].Save? && History(ops, id)[i] in ops
  {
    if ops != [] {
      var (init, op) := (ops[..|ops| - 1], ops[|ops| - 1]);
      HistorySaves(init, id);
      var (h0, h) := (History(init, id), History(ops, id));
      forall i | 0 <= i < |h| ensures h[i].Save? && h[i] in ops {
        assert i < |h0| ==> h[i] == h0[i] && h0[i] in init;
      }
    }
  }

  lemma {:induction false} StampedPlain(model: Doc, id: string, exists_: bool, now: int)
    ensures Stamped(model, id, exists_, now) - RESERVED == model - RESERVED
  {
  }

  lemma {:induction false} OverlayPlain(d: Doc, e: Doc)
    ensures (d + e) - RESERVED == (d - RESERVED) + (e - RESERVED)
  {
  }

  /** One more save of a document that is there takes over one of the two stamps. */
  lemma {:induction false} HistoryGrows(h: seq<Op>, op: Op)
    requires h != [] && AllSaves(h) && op.Save?
    ensures AllSaves(h + [op]) && (Creates(h + [op], |h|) <==> op.countFails)
    ensures forall i :: 0 <= i < |h| ==> (Creates(h + [op], i) <==> Creates(h, i))
  {
    assert forall i :: 0 <= i < |h| ==> (h + [op])[i] == h[i];
  }

  lemma {:induction false} LastCreatesStays(h: seq<Op>, op: Op, i: int)
    requires h != [] && AllSaves(h) && op.Save? && !op.countFails && LastCreates(h, i)
    ensures AllSaves(h + [op]) && LastCreates(h + [op], i) && LastUpdates(h + [op], |h|) && (h + [op])[i] == h[i]
  {
    HistoryGrows(h, op);
    forall j | i < j <= |h| ensures !Creates(h + [op], j) {
      assert j < |h| ==> !Creates(h, j);
    }
  }

  lemma {:induction false} LastUpdatesStays(h: seq<Op>, op: Op, i: int)
    requires h != [] && AllSaves(h) && op.Save? && op.countFails && LastUpdates(h, i)
    ensures AllSaves(h + [op]) && LastUpdates(h + [op], i) && (h + [op])[i] == h[i]
  {
    HistoryGrows(h, op);
    forall j | i < j <= |h| ensures Creates(h + [op], j) {
      assert j < |h| ==> Creates(h, j);
    }
  }

  /** The fields besides the id and the stamps. */
  lemma {:induction false} PlainFieldsOfSave(store: Store, id: string, h: seq<Op>, op: Op)
    requires op.Save? && op.id == id && (id in store <==> h != [])
    requires h != [] ==> store[id] - RESERVED == Merged(h) - RESERVED
    ensures Applied(store, op)[id] - RESERVED == Merged(h + [op]) - RESERVED
  {
    var seen := h != [] && !op.countFails;
    var stamped := Stamped(op.model, id, seen, op.now);
    assert (h + [op])[..|h|] == h;
    StampedPlain(op.model, id, seen, op.now);
    OverlayPlain(Merged(h), op.model);
    if h != [] {
      assert Applied(store, op)[id] == store[id] + stamped;
      OverlayPlain(store[id], stamped);
    } else {
      assert Merged(h) - RESERVED == map[];
    }
  }

  /** The stamps that a save leaves. */
  lemma {:induction false} StampsOfSave(store: Store, op: Op)
    requires op.Save? && NoStamps(op.model) && op.id in store
    ensures var (d, d') := (store[op.id], Applied(store, op)[op.id]);
      var (stamp, kept) := if op.countFails then ("createdOn", "updatedOn") else ("updatedOn", "createdOn");
      && "_id" in d' && d'["_id"] == Text(op.id)
      && stamp in d' && d'[stamp] == Int64(op.now)
      && (kept in d' <==> kept in d) && (kept in d ==> d'[kept] == d[kept])
  {
  }

  lemma {:induction false} SaveReflects(store: Store, id: string, h: seq<Op>, op: Op)
    requires op.Save? && op.id == id && NoStamps(op.model)
    requires AllSaves(h)
    requires id in store <==> h != []
    requires h != [] ==> Reflects(store[id], id, h)
    ensures id in Applied(store, op) && Reflects(Applied(store, op)[id], id, h + [op])
  {
    PlainFieldsOfSave(store, id, h, op);
    var d := Applied(store, op)[id];
    var h' := h + [op];
    assert h'[|h|] == op;
    if h == [] {
      assert LastCreates(h', 0);
    } else {
      hide Applied, Merged;
      StampsOfSave(store, op);
      HistoryGrows(h, op);
      if op.countFails {
        assert LastCreates(h', |h|);
        if "updatedOn" in store[id] {
          var i :| LastUpdates(h, i) && store[id]["updatedOn"] == Int64(h[i].now);
          LastUpdatesStays(h, op, i);
        }
      } else {
        var i :| LastCreates(h, i) && store[id]["createdOn"] == Int64(h[i].now);
        LastCreatesStays(h, op, i);
      }
    }
  }

  /**
    After any run of saves and deletes, whichever counts fail: a document is stored exactly when it was
    saved since it was last deleted. Of those saves, the first and those with a failing count set
    createdOn and the others updatedOn; each stamp is the time of the last save that sets it. The other
    fields are the saved models laid over each other.
   */
  lemma {:induction false} StoreReflectsHistory(ops: seq<Op>, id: string)
    requires PlainModels(ops)
    ensures var (store, h) := (After(ops), History(ops, id));
      && (id in store <==> h != [])
      && AllSaves(h)
      && (h != [] ==> Reflects(store[id], id, h))
  {
    HistorySaves(ops, id);
    if ops != [] {
      var (init, op) := (ops[..|ops| - 1], ops[|ops| - 1]);
      assert PlainModels(init);
      StoreReflectsHistory(init, id);
      if op.id == id && op.Save? {
        SaveReflects(After(init), id, History(init, id), op);
      }
    }
  }

  lemma {:induction false} HistoryInOrder(ops: seq<Op>, id: string)
    requires ClockMonotone(ops)
    ensures ClockMonotone(History(ops, id))
  {
    if ops != [] {
      var (init, op) := (ops[..|ops| - 1], ops[|ops| - 1]);
      assert ClockMonotone(init) by {
        forall i, j | 0 <= i < j < |init| && init[i].Save? && init[j].Save? ensures init[i].now <= init[j].now {
          assert init[i] == ops[i] && init[j] == ops[j];
        }
      }
      HistoryInOrder(init, id);
      HistorySaves(init, id);
      var h := History(init, id);
      if op.Save? && op.id == id {
        forall i | 0 <= i < |h| ensures h[i].now <= op.now {
          assert h[i] in init;
          var k :| 0 <= k < |init| && init[k] == h[i];
          assert ops[k] == h[i];
        }
      }
    }
  }

  /** No count fails. */
  predicate CountsSucceed(ops: seq<Op>) {
    forall i :: 0 <= i < |ops| && ops[i].Save? ==> !ops[i].countFails
  }

  /** In particular with counts that succeed: the first save since insertion, and from the second on the last. */
  lemma {:induction false} StampsOfCalmHistory(ops: seq<Op>, id: string)
    requires PlainModels(ops) && CountsSucceed(ops) && id in After(ops)
    ensures var (d, h) := (After(ops)[id], History(ops, id));
      && h != [] && AllSaves(h)
      && "createdOn" in d && d["createdOn"] == Int64(h[0].now)
      && ("updatedOn" in d <==> |h| >= 2)
      && (|h| >= 2 ==> d["updatedOn"] == Int64(h[|h| - 1].now))
  {
    StoreReflectsHistory(ops, id);
    HistorySaves(ops, id);
    var (d, h) := (After(ops)[id], History(ops, id));
    forall i | 0 <= i < |h| ensures Creates(h, i) <==> i == 0 {
      assert h[i] in ops;
    }
    assert "updatedOn" in d ==> !Creates(h, |h| - 1);
    assert "updatedOn" !in d ==> Creates(h, |h| - 1);
  }

  /**
    With a clock that does not run backwards: a document whose last save knew of it is not updated before
    it is created; one whose last save did not is not created before it is updated.
   */
  lemma {:induction false} CreatedBeforeUpdated(ops: seq<Op>, id: string)
    requires PlainModels(ops) && ClockMonotone(ops) && id in After(ops) && "updatedOn" in After(ops)[id]
    ensures var (d, h) := (After(ops)[id], History(ops, id));
      && "createdOn" in d && d["createdOn"].Int64? && d["updatedOn"].Int64?
      && h != [] && h[|h| - 1].Save?
      && (if h[|h| - 1].countFails then d["updatedOn"].n <= d["createdOn"].n
          else d["createdOn"].n <= d["updatedOn"].n)
  {
    StoreReflectsHistory(ops, id);
    HistoryInOrder(ops, id);
    var (d, h) := (After(ops)[id], History(ops, id));
    var i :| LastCreates(h, i) && d["createdOn"] == Int64(h[i].now);
    var j :| LastUpdates(h, j) && d["updatedOn"] == Int64(h[j].now);
    if h[|h| - 1].countFails {
      assert Creates(h, |h| - 1);
      assert i == |h| - 1;
    } else {
      assert j != 0;
      assert !Creates(h, |h| - 1);
      assert j == |h| - 1;
    }
  }

  /** A Save of a stored document leaves its createdOn alone when its count succeeds, whatever came before. */
  lemma {:induction false} CreatedOnKept(ops: seq<Op>, op: Op)
    requires PlainModels(ops + [op]) && op.Save? && op.id in After(ops)
    ensures var (d, d') := (After(ops)[op.id], After(ops + [op])[op.id]);
      && "createdOn" in d && "createdOn" in d'
      && d'["createdOn"] == if op.countFails then Int64(op.now) else d["createdOn"]
  {
    var all := ops + [op];
    assert all[..|ops|] == ops;
    assert PlainModels(ops) by {
      forall i | 0 <= i < |ops| && ops[i].Save? ensures NoStamps(ops[i].model) {
        assert all[i] == ops[i];
      }
    }
    StoreReflectsHistory(ops, op.id);
    assert NoStamps(all[|ops|].model);
  }

  /** So a Save of a stored document rewrites createdOn exactly when its count fails and the time is another. */
  lemma {:induction false} CreatedOnRewrittenIff(ops: seq<Op>, op: Op)
    requires PlainModels(ops + [op]) && op.Save? && op.id in After(ops)
    ensures var (d, d') := (After(ops)[op.id], After(ops + [op])[op.id]);
      && "createdOn" in d && "createdOn" in d'
      && (d'["createdOn"] != d["createdOn"] <==> op.countFails && d["createdOn"] != Int64(op.now))
  {
    CreatedOnKept(ops, op);
  }

  /** The fields of all models in a history. */
  function SavedFields(h: seq<Op>): set<string> {
    Merged(h).Keys - RESERVED
  }

  /**
    FindOneByID reads back the fields of the last saved model. It reads nothing else exactly when no
    earlier model since insertion had a field that the last one leaves out: $set does not remove fields.
   */
  lemma {:induction false} ReadsBackLastModel(ops: seq<Op>, id: string)
    requires PlainModels(ops) && id in After(ops)
    ensures var (d, h) := (After(ops)[id], History(ops, id));
      && h != [] && h[|h| - 1].Save?
      && var last := h[|h| - 1].model;
      && (forall f :: f in last && f !in RESERVED ==> f in d && d[f] == last[f])
      && (d - RESERVED == last - RESERVED <==> SavedFields(h[..|h| - 1]) <= last.Keys)
  {
    StoreReflectsHistory(ops, id);
    var (d, h) := (After(ops)[id], History(ops, id));
    var (earlier, last) := (h[..|h| - 1], h[|h| - 1].model);
    assert Merged(h) == Merged(earlier) + last;
    forall f | f in last && f !in RESERVED ensures f in d && d[f] == last[f] {
      assert f in Merged(h) - RESERVED;
    }
    if SavedFields(earlier) <= last.Keys {
      assert Merged(h) - RESERVED == last - RESERVED;
    } else {
      var f :| f in SavedFields(earlier) && f !in last.Keys;
      assert f in Merged(h) - RESERVED && f !in last - RESERVED;
    }
  }

  lemma {:induction false} AppliedKeyed(store: Store, op: Op)
    requires Keyed(store)
    ensures Keyed(Applied(store, op))
  {
  }

  /** FindOneByID and DeleteByID may be called after any run: documents stay under their ids. */
  lemma {:induction false} AfterKeyed(ops: seq<Op>)
    ensures Keyed(After(ops))
  {
    if ops != [] {
      AfterKeyed(ops[..|ops| - 1]);
      AppliedKeyed(After(ops[..|ops| - 1]), ops[|ops| - 1]);
    }
  }
}
