/** The media service and the owners of blobs together: what a batch that stops half-way leaves behind, and
    who removes it. */
module MediaOwnership {
  import opened Common
  import opened ObjectStores
  import opened PayloadTrees
  import opened MediaService
  import L = MediaLifecycle
  import C = MediaCleanup

  function RowOf(id: string, r: Row): L.Row {
    L.Row(id, r.momentId, r.userId, r.storageKey, r.thumbKey)
  }

  /** The service's table and store, with modification times and a delete queue, as the deletions and the
      cleanup see them. */
  ghost function WorldOf(rows: map<string, Row>, objects: Objects, times: string -> Option<int>,
                         queue: map<string, nat>, locked: set<string>): L.World
  {
    L.World(map k | k in objects :: times(k), set id | id in rows :: RowOf(id, rows[id]), queue, locked)
  }

  lemma {:induction false} RowsReference(rows: map<string, Row>, objects: Objects, times: string -> Option<int>,
                                         queue: map<string, nat>, locked: set<string>, k: string)
    requires WellNamed(rows)
    ensures WorldOf(rows, objects, times, queue, locked).Referenced(k) <==>
            exists id :: id in rows && k in RowKeys(rows[id])
  {
    var w := WorldOf(rows, objects, times, queue, locked);
    if w.Referenced(k) {
      var r :| r in w.media && k in L.KeysOf(r);
      assert r.id in rows && k in RowKeys(rows[r.id]);
    }
    if id :| id in rows && k in RowKeys(rows[id]) {
      assert RowOf(id, rows[id]) in w.media && k in L.KeysOf(RowOf(id, rows[id]));
    }
  }

  /** MAIN: wherever a batch stops, the only blobs without an owner that it leaves are those of the one image it
      was at; and if it does not stop, it leaves none. */
  lemma {:induction false} OnlyTheLastIsOrphaned(rows: map<string, Row>, objects: Objects, rows': map<string, Row>,
                                                 objects': Objects, times: string -> Option<int>,
                                                 times': string -> Option<int>, queue: map<string, nat>,
                                                 locked: set<string>, u: string, m: string, ids: seq<string>, n: nat,
                                                 stopped: bool, k: string)
    requires WellNamed(rows) && WellNamed(rows') && n <= |ids| && Added(rows, rows', ids, n)
    requires NewOwned(objects, objects', rows', u, m, ids, n, stopped)
    requires WorldOf(rows', objects', times', queue, locked).Orphan(k)
    requires !WorldOf(rows, objects, times, queue, locked).Orphan(k)
    ensures stopped && n < |ids| && k in KeysFor(u, m, ids[n])
  {
    RowsReference(rows, objects, times, queue, locked, k);
    RowsReference(rows', objects', times', queue, locked, k);
  }

  /** MAIN: a stored image's blob is an orphan exactly as long as its row is not in the table, if no tombstone
      holds it: so every batch that stops between the put and the insert leaves one. */
  lemma {:induction false} OrphanUntilInserted(rows: map<string, Row>, objects: Objects, times: string -> Option<int>,
                                               queue: map<string, nat>, locked: set<string>,
                                               u: string, m: string, id: string)
    requires WellNamed(rows) && IsUuid(id) && StorageKey(u, m, id) in objects && StorageKey(u, m, id) !in queue
    requires id in rows ==> rows[id].userId == u && rows[id].momentId == m
    ensures WorldOf(rows, objects, times, queue, locked).Orphan(StorageKey(u, m, id)) <==> id !in rows
  {
    var k := StorageKey(u, m, id);
    RowsReference(rows, objects, times, queue, locked, k);
    if id in rows {
      assert k in RowKeys(rows[id]);
    }
    if id' :| id' in rows && k in RowKeys(rows[id']) {
      if id' != id {
        KeysAreSeparate(u, m, id, rows[id'].userId, rows[id'].momentId, id');
      }
    }
  }

  /** Only the sweep removes it, once it is old enough. Deletions of moments and accounts keep within the
      keys of rows, and the drain within the tombstoned ones. */
  lemma {:induction false} OnlyTheSweepRemoves(w: L.World, k: string, now: int, minAgeMs: int)
    requires w.Orphan(k)
    ensures forall after: L.World, rows: set<L.Row> ::
              rows <= w.media && after.media <= w.media && L.Within(w, after, L.KeysOfAll(rows)) ==> after.Orphan(k)
    ensures forall after: L.World :: C.Drained(w, after) ==> after.Orphan(k)
    ensures k in C.FullCleanup(w, now, minAgeMs).objects <==> C.Recent(w.objects[k], now, minAgeMs)
  {
    forall after: L.World, rows: set<L.Row> |
      rows <= w.media && after.media <= w.media && L.Within(w, after, L.KeysOfAll(rows))
      ensures after.Orphan(k)
    {
      L.OrphansStay(w, after, rows, k);
    }
    assert k in C.FullDrain(w).objects && !C.FullDrain(w).Referenced(k);
  }

  /** The batch itself, in those terms. */
  method StoreImages(media: MediaService, userId: string, momentId: string, images: seq<Image>, state: State,
                     ids: seq<string>, ghost times: string -> Option<int>, ghost times': string -> Option<int>,
                     ghost queue: map<string, nat>, ghost locked: set<string>)
    returns (ok: bool, ghost stored: nat)
    requires media.Valid() && FreshIds(ids, media.rows) && (SafeState(state) ==> |ids| >= |images|)
    modifies media, media.store
    ensures stored <= |ids| && (ok && SafeState(state) ==> stored == |images|)
    ensures forall k ::
              && WorldOf(media.rows, media.store.objects, times', queue, locked).Orphan(k)
              && !old(WorldOf(media.rows, media.store.objects, times, queue, locked)).Orphan(k) ==>
                !ok && stored < |ids| && k in KeysFor(userId, momentId, ids[stored])
  {
    ghost var rows, objects := media.rows, media.store.objects;
    ok, stored := media.StoreMomentImages(userId, momentId, images, state, ids);
    forall k |
      && WorldOf(media.rows, media.store.objects, times', queue, locked).Orphan(k)
      && !WorldOf(rows, objects, times, queue, locked).Orphan(k)
      ensures !ok && stored < |ids| && k in KeysFor(userId, momentId, ids[stored])
    {
      OnlyTheLastIsOrphaned(rows, objects, media.rows, media.store.objects, times, times', queue, locked,
                            userId, momentId, ids, stored, !ok, k);
    }
  }
}
