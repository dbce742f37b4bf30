/** Who owns a media blob: moment and account deletion, the tombstone queue of failed blob deletions,
    and the cleanup command that drains the queue and removes orphans. */
module MediaLifecycle {
  import opened Common

  datatype Row = Row(id: string, momentId: string, userId: string, storageKey: string, thumbKey: Option<string>)

  /** The keys of a row; an empty thumbnail key counts as none. */
  function KeysOf(r: Row): set<string> {
    {r.storageKey} + if r.thumbKey.Some? && r.thumbKey.value != "" then {r.thumbKey.value} else {}
  }

  function KeysOfAll(rows: set<Row>): set<string> {
    set r, k | r in rows && k in KeysOf(r) :: k
  }

  /** A row refers to its image and, where there is one, to its thumbnail. */
  lemma {:induction false} KeysMean(rows: set<Row>, key: string)
    ensures key in KeysOfAll(rows) <==>
            exists r :: r in rows && (r.storageKey == key || (r.thumbKey == Some(key) && key != ""))
  {
    if key in KeysOfAll(rows) {
      var r :| r in rows && key in KeysOf(r);
    }
    if r :| r in rows && (r.storageKey == key || (r.thumbKey == Some(key) && key != "")) {
      assert key in KeysOf(r);
    }
  }

  /** Stored objects with their modification times, the moment_media table, and the delete queue with
      the attempts of each tombstone (its storage key is unique), and the accounts locked by a
      deletion in progress. */
  datatype World = World(
    objects: map<string, Option<int>>, media: set<Row>, queue: map<string, nat>, locked: set<string>)
  {
    predicate Referenced(key: string) {
      key in KeysOfAll(media)
    }

    /** Stored, but nobody will ever delete it: no row refers to it and no tombstone holds it. */
    predicate Orphan(key: string) {
      key in objects && !Referenced(key) && key !in queue
    }

    /** Stored and referenced, and yet tombstoned: the next drain of the queue deletes it. */
    predicate Endangered(key: string) {
      key in objects && Referenced(key) && key in queue
    }
  }

  // ---------------------------------------------------------------- atomic steps

  /** A blob delete that throws may still have removed the blob. */
  ghost predicate DeleteBlobStep(a: World, b: World, key: string, ok: bool) {
    b == a.(objects := a.objects - {key}) || (!ok && b == a)
  }

  /** Insert or bump a tombstone; the statement may throw before or after it took effect. */
  ghost predicate EnqueueStep(a: World, b: World, key: string, ok: bool) {
    b == a.(queue := Bumped(a.queue, key)) || (!ok && b == a)
  }

  /** The final transaction: the rows go, all at once or not at all. */
  ghost predicate CommitStep(a: World, b: World, rows: set<Row>, ok: bool) {
    b == a.(media := a.media - rows) || (!ok && b == a)
  }

  /** Of the steps a deletion is made of, only one endangers a blob: a tombstone that takes effect for a
      stored key which a row refers to. */
  lemma {:induction false} OnlyTombstonesEndanger(a: World, b: World, key: string, rows: set<Row>, ok: bool)
    requires forall k :: !a.Endangered(k)
    requires DeleteBlobStep(a, b, key, ok) || EnqueueStep(a, b, key, ok) || CommitStep(a, b, rows, ok)
    ensures (exists k :: b.Endangered(k)) <==>
            b.queue != a.queue && key in b.objects && b.Referenced(key)
  {
    if b.queue != a.queue && key in b.objects && b.Referenced(key) {
      assert b.Endangered(key);
    }
    forall k | b.Endangered(k)
      ensures k == key && b.queue != a.queue
    {
      assert !a.Endangered(k);
      assert b.media <= a.media;
    }
  }

  /** Until the transaction takes effect the key stays endangered; once it has, the key is endangered
      exactly when a row that stays shares it. */
  lemma {:induction false} CommitDecides(a: World, b: World, rows: set<Row>, ok: bool, key: string)
    requires a.Endangered(key) && CommitStep(a, b, rows, ok)
    ensures b.Endangered(key) <==> b == a || exists r :: r in a.media - rows && key in KeysOf(r)
  {}

  /** Every stored blob of every row can get there: its delete fails, its tombstone is written, and the
      transaction that was to remove the row fails. */
  lemma {:induction false} FailedCommitEndangers(w: World, r: Row, key: string) returns (b: World, c: World, d: World)
    requires r in w.media && key in KeysOf(r) && key in w.objects
    ensures DeleteBlobStep(w, b, key, false) && EnqueueStep(b, c, key, true) && CommitStep(c, d, {r}, false)
    ensures d.media == w.media && d.objects == w.objects && d.Endangered(key)
  {
    b := w;
    c := b.(queue := Bumped(b.queue, key));
    d := c;
  }

  /** Every orphan afterwards was one before: whatever was referenced, tombstoned or absent still is
      one of the three. */
  ghost predicate NoNewOrphan(before: World, after: World) {
    forall k :: after.Orphan(k) ==> before.Orphan(k)
  }

  ghost predicate TrailOwned(trail: seq<World>, from: nat, before: World) {
    forall i :: from <= i < |trail| ==> NoNewOrphan(before, trail[i]) && before.locked <= trail[i].locked
  }

  lemma {:induction false} TrailOwnedExtends(a: World, b: World, before: seq<World>, after: seq<World>, from: nat)
    requires from <= |before| && before <= after && NoNewOrphan(a, b) && a.locked <= b.locked
    requires TrailOwned(before, from, a) && TrailOwned(after, |before|, b)
    ensures TrailOwned(after, from, a)
  {
    forall i | from <= i < |after|
      ensures NoNewOrphan(a, after[i]) && a.locked <= after[i].locked
    {
      if i < |before| {
        assert after[i] == before[i];
      } else {
        assert NoNewOrphan(b, after[i]) && b.locked <= after[i].locked;
      }
    }
  }

  /** Only these keys' blobs were deleted and only these keys tombstoned. */
  ghost predicate Within(before: World, after: World, may: set<string>) {
    && after.objects.Keys <= before.objects.Keys && after.queue.Keys >= before.queue.Keys
    && (forall k :: k in after.objects ==> after.objects[k] == before.objects[k])
    && (forall k :: k in before.objects && k !in may ==> k in after.objects)
    && (forall k :: k in after.queue && k !in may ==> k in before.queue && after.queue[k] == before.queue[k])
  }

  /** Each of the keys is gone or tombstoned, no owner was lost, and nothing beyond `may` was touched; if
      `quietly`, all of the keys are gone, nothing else is, and nothing was tombstoned. */
  ghost predicate Released(before: World, after: World, keys: set<string>, may: set<string>, quietly: bool) {
    && after.media == before.media && after.locked == before.locked
    && Within(before, after, may)
    && NoNewOrphan(before, after)
    && (forall k :: k in keys ==> k !in after.objects || k in after.queue)
    && (quietly ==> after.queue == before.queue && after.objects == before.objects - keys)
  }

  lemma {:induction false} ReleasedMore(a: World, b: World, c: World, keys: set<string>, more: set<string>,
                                        may: set<string>, quietly: bool)
    requires Released(a, b, keys, may, quietly) && Released(b, c, more, may, quietly)
    ensures Released(a, c, keys + more, may, quietly)
  {
    assert quietly ==> a.objects - keys - more == a.objects - (keys + more);
  }

  lemma {:induction false} ReleasedLess(a: World, b: World, keys: set<string>, may: set<string>)
    requires Released(a, b, keys, may, false)
    ensures Released(a, b, {}, may, false)
  {}

  lemma {:induction false} ReleasedWider(a: World, b: World, keys: set<string>, may: set<string>, wider: set<string>,
                                         quietly: bool)
    requires Released(a, b, keys, may, quietly) && may <= wider
    ensures Released(a, b, keys, wider, quietly)
  {}

  function Bumped(queue: map<string, nat>, key: string): map<string, nat> {
    queue[key := if key in queue then queue[key] + 1 else 1]
  }

  /** A new tombstone has been attempted once, and one that is there once more than before. */
  lemma {:induction false} BumpedMeans(queue: map<string, nat>, key: string)
    ensures var after := Bumped(queue, key);
            && after.Keys == queue.Keys + {key} && after - {key} == queue - {key}
            && after[key] == 1 + if key in queue then queue[key] else 0
  {}

  class MediaStorage {
    var objects: map<string, Option<int>>
    var media: set<Row>
    var queue: map<string, nat>
    var locked: set<string>
    /** Whether every blob delete, and every statement, returns. */
    const storeReliable: bool
    const dbReliable: bool
    /** Every state so far: what a stop at any step leaves behind. */
    ghost var trail: seq<World>

    ghost function Now(): World
      reads this
    {
      World(objects, media, queue, locked)
    }

    // -------------------------------------------------------------- atomic steps

    method DeleteBlob(key: string) returns (ok: bool)
      modifies this
      ensures DeleteBlobStep(old(Now()), Now(), key, ok)
      ensures trail == old(trail) + [Now()]
      ensures storeReliable ==> ok
    {
      var landed: bool := *;
      ok := *;
      ok := ok || storeReliable;
      if ok || landed {
        objects := objects - {key};
      }
      trail := trail + [Now()];
    }

    method Enqueue(key: string) returns (ok: bool)
      modifies this
      ensures EnqueueStep(old(Now()), Now(), key, ok)
      ensures trail == old(trail) + [Now()]
      ensures dbReliable ==> ok
    {
      var landed: bool := *;
      ok := *;
      ok := ok || dbReliable;
      if ok || landed {
        queue := Bumped(queue, key);
      }
      trail := trail + [Now()];
    }

    method RemoveTombstone(key: string) returns (ok: bool)
      modifies this
      ensures media == old(media) && objects == old(objects) && locked == old(locked)
      ensures queue == old(queue) - {key} || (!ok && queue == old(queue))
      ensures trail == old(trail) + [Now()]
      ensures dbReliable ==> ok
    {
      var landed: bool := *;
      ok := *;
      ok := ok || dbReliable;
      if ok || landed {
        queue := queue - {key};
      }
      trail := trail + [Now()];
    }

    method BumpAttempts(key: string) returns (ok: bool)
      modifies this
      ensures media == old(media) && objects == old(objects) && locked == old(locked)
      ensures queue == old(queue) || (key in old(queue) && queue == Bumped(old(queue), key))
      ensures ok && key in old(queue) ==> queue == Bumped(old(queue), key)
      ensures trail == old(trail) + [Now()]
      ensures dbReliable ==> ok
    {
      var landed: bool := *;
      ok := *;
      ok := ok || dbReliable;
      if (ok || landed) && key in queue {
        queue := Bumped(queue, key);
      }
      trail := trail + [Now()];
    }

    method CommitRowDeletion(rows: set<Row>) returns (ok: bool)
      modifies this
      ensures CommitStep(old(Now()), Now(), rows, ok)
      ensures trail == old(trail) + [Now()]
      ensures dbReliable ==> ok
    {
      var landed: bool := *;
      ok := *;
      ok := ok || dbReliable;
      if ok || landed {
        media := media - rows;
      }
      trail := trail + [Now()];
    }

    // -------------------------------------------------------------- deletion

    /** Delete one blob, or tombstone its key. */
    method DeleteKey(key: string) returns (ok: bool, deleted: bool)
      modifies this
      ensures old(trail) <= trail && TrailOwned(trail, |old(trail)|, old(Now()))
      ensures Released(old(Now()), Now(), if ok then {key} else {}, {key}, ok && deleted)
      ensures dbReliable || storeReliable ==> ok
      ensures storeReliable ==> deleted
    {
      ok := true;
      deleted := DeleteBlob(key);
      if !deleted {
        ok := Enqueue(key);
      }
    }

    /** Delete the blobs of one row; a key whose delete failed becomes a tombstone. */
    method DeleteRowBlobs(r: Row) returns (ok: bool, objectOk: bool, queued: nat)
      modifies this
      ensures old(trail) <= trail && TrailOwned(trail, |old(trail)|, old(Now()))
      ensures Released(old(Now()), Now(), if ok then KeysOf(r) else {}, KeysOf(r), ok && objectOk)
      ensures ok ==> (objectOk <==> queued == 0) && queued <= |KeysOf(r)|
      ensures dbReliable || storeReliable ==> ok
      ensures storeReliable ==> objectOk
    {
      ok, queued := DeleteKeys(KeysOf(r));
      objectOk := ok && queued == 0;
    }

    /** The loop over the keys. */
    method DeleteKeys(keys: set<string>) returns (ok: bool, queued: nat)
      modifies this
      ensures old(trail) <= trail && TrailOwned(trail, |old(trail)|, old(Now()))
      ensures Released(old(Now()), Now(), if ok then keys else {}, keys, ok && queued == 0)
      ensures ok ==> queued <= |keys|
      ensures dbReliable || storeReliable ==> ok
      ensures storeReliable ==> queued == 0
    {
      ok, queued := true, 0;
      var pending := keys;
      ghost var start, from, done: set<string> := Now(), |trail|, {};
      while pending != {}
        invariant done + pending == keys && done !! pending && queued + |pending| <= |keys|
        invariant from == |old(trail)| && old(trail) <= trail && TrailOwned(trail, from, start)
        invariant Released(start, Now(), done, keys, queued == 0)
        invariant storeReliable ==> queued == 0
        decreases pending
      {
        var key :| key in pending;
        var deleted;
        ok, deleted := DeleteNextKey(key, start, from, done, keys, queued == 0);
        if !ok {
          return;
        }
        if !deleted {
          queued := queued + 1;
        }
        pending, done := pending - {key}, done + {key};
      }
      assert done == keys;
    }

    /** One more key, after those of `done`. */
    method DeleteNextKey(key: string, ghost start: World, ghost from: nat, ghost done: set<string>,
                         ghost may: set<string>, ghost quietly: bool)
      returns (ok: bool, deleted: bool)
      requires from <= |trail| && TrailOwned(trail, from, start) && Released(start, Now(), done, may, quietly)
      requires key in may
      modifies this
      ensures old(trail) <= trail && TrailOwned(trail, from, start)
      ensures ok ==> Released(start, Now(), done + {key}, may, quietly && deleted)
      ensures !ok ==> Released(start, Now(), {}, may, false)
      ensures dbReliable || storeReliable ==> ok
      ensures storeReliable ==> deleted
    {
      ok, deleted := DeleteKey(key);
      TrailOwnedExtends(start, old(Now()), old(trail), trail, from);
      ReleasedWider(old(Now()), Now(), if ok then {key} else {}, {key}, may, ok && deleted);
      ReleasedMore(start, old(Now()), Now(), done, if ok then {key} else {}, may, quietly && ok && deleted);
      if !ok {
        ReleasedLess(start, Now(), done + {}, may);
      }
    }

    /** One more row, after those of `done`. */
    method ReleaseNext(r: Row, ghost start: World, ghost from: nat, ghost done: set<Row>,
                       ghost may: set<string>, ghost quietly: bool)
      returns (ok: bool, objectOk: bool, queued: nat)
      requires from <= |trail| && TrailOwned(trail, from, start)
      requires Released(start, Now(), KeysOfAll(done), may, quietly)
      requires KeysOf(r) <= may
      modifies this
      ensures old(trail) <= trail && TrailOwned(trail, from, start)
      ensures Released(start, Now(), KeysOfAll(if ok then done + {r} else done), may, quietly && ok && objectOk)
      ensures ok ==> (objectOk <==> queued == 0)
      ensures dbReliable || storeReliable ==> ok
      ensures storeReliable ==> objectOk
    {
      ok, objectOk, queued := DeleteRowBlobs(r);
      TrailOwnedExtends(start, old(Now()), old(trail), trail, from);
      ReleasedWider(old(Now()), Now(), if ok then KeysOf(r) else {}, KeysOf(r), may, ok && objectOk);
      ReleasedMore(start, old(Now()), Now(), KeysOfAll(done), if ok then KeysOf(r) else {}, may,
                   quietly && ok && objectOk);
      KeysOfOneMore(done, r);
    }

    /** The loop over the rows. */
    method ReleaseRows(rows: set<Row>) returns (ok: bool, deleted: nat, queued: nat)
      modifies this
      ensures old(trail) <= trail && TrailOwned(trail, |old(trail)|, old(Now()))
      ensures Released(old(Now()), Now(), if ok then KeysOfAll(rows) else {}, KeysOfAll(rows), ok && queued == 0)
      ensures ok ==> deleted <= |rows| && (queued == 0 <==> deleted == |rows|)
      ensures dbReliable || storeReliable ==> ok
      ensures storeReliable ==> queued == 0
    {
      ok, deleted, queued := false, 0, 0;
      var pending := rows;
      ghost var start, from, done: set<Row> := Now(), |trail|, {};
      while pending != {}
        invariant done + pending == rows && done !! pending
        invariant from == |old(trail)| && old(trail) <= trail && TrailOwned(trail, from, start)
        invariant Released(start, Now(), KeysOfAll(done), KeysOfAll(rows), queued == 0)
        invariant deleted + |pending| <= |rows| && (queued == 0 <==> deleted + |pending| == |rows|)
        invariant storeReliable ==> queued == 0
        decreases pending
      {
        var r :| r in pending;
        var step, objectOk, n := ReleaseNext(r, start, from, done, KeysOfAll(rows), queued == 0);
        if !step {
          ReleasedLess(start, Now(), KeysOfAll(done), KeysOfAll(rows));
          return;
        }
        queued := queued + n;
        if objectOk {
          deleted := deleted + 1;
        }
        pending, done := pending - {r}, done + {r};
      }
      assert done == rows;
      ok := true;
    }

    /** The user's rows in those moments. */
    function RowsOf(userId: string, moments: set<string>): set<Row>
      reads this
    {
      set r | r in media && r.userId == userId && r.momentId in moments
    }

    function RowsOfMoment(momentId: string): set<Row>
      reads this
    {
      set r | r in media && r.momentId == momentId
    }

    function RowsOfUser(userId: string): set<Row>
      reads this
    {
      set r | r in media && r.userId == userId
    }

    /** Blobs first: afterwards every key of the user's rows in those moments is gone or tombstoned. A
        store failure alone never stops it, and without one nothing is tombstoned. */
    method DeleteForMoments(userId: string, moments: set<string>) returns (ok: bool, deleted: nat, queued: nat)
      modifies this
      ensures old(trail) <= trail && TrailOwned(trail, |old(trail)|, old(Now()))
      ensures Released(old(Now()), Now(), if ok then KeysOfAll(old(RowsOf(userId, moments))) else {},
                       KeysOfAll(old(RowsOf(userId, moments))), ok && queued == 0)
      ensures ok ==>
                && deleted <= |old(RowsOf(userId, moments))|
                && (queued == 0 <==> deleted == |old(RowsOf(userId, moments))|)
      ensures dbReliable || storeReliable ==> ok
      ensures storeReliable ==> queued == 0
    {
      ok, deleted, queued := ReleaseRows(RowsOf(userId, moments));
    }

    /** Deleting a moment, wherever it stops: with the media pipeline available no blob loses its owner.
        Without it the rows go and the blobs stay behind, so it is exactly then that a stored key which
        no other row and no tombstone holds becomes an orphan. */
    method DeleteMoment(userId: string, momentId: string, mediaAvailable: bool) returns (ok: bool)
      requires forall r :: r in media && r.momentId == momentId ==> r.userId == userId
      modifies this
      ensures old(trail) <= trail
      ensures mediaAvailable ==> TrailOwned(trail, |old(trail)|, old(Now())) && NoNewOrphan(old(Now()), Now())
      ensures Within(old(Now()), Now(), KeysOfAll(old(RowsOfMoment(momentId))))
      ensures dbReliable ==> ok
      ensures ok ==> media == set r | r in old(media) && r.momentId != momentId
      ensures ok && mediaAvailable && storeReliable ==>
                queue == old(queue) && objects == old(objects) - KeysOfAll(old(RowsOfMoment(momentId)))
      ensures ok && !mediaAvailable ==>
                (NoNewOrphan(old(Now()), Now()) <==>
                 forall k :: k in KeysOfAll(old(RowsOfMoment(momentId))) && k in old(objects) ==>
                   k in old(queue) || k in KeysOfAll(media))
    {
      var rows := RowsOfMoment(momentId);
      ghost var start, from := Now(), |trail|;
      ok := true;
      if mediaAvailable {
        ok := ReleaseMoment(userId, momentId);
        if !ok {
          return;
        }
      }
      ghost var before, trail' := Now(), trail;
      ok := CommitRowDeletion(rows);
      if mediaAvailable {
        RowsGone(before, Now(), rows);
        TrailOwnedExtends(start, before, trail', trail, from);
      } else if ok {
        RowsGoneUntombstoned(start, Now(), rows);
      }
    }

    /** The moment's blobs deleted or tombstoned. */
    method ReleaseMoment(userId: string, momentId: string) returns (ok: bool)
      requires forall r :: r in media && r.momentId == momentId ==> r.userId == userId
      modifies this
      ensures old(trail) <= trail && TrailOwned(trail, |old(trail)|, old(Now())) && NoNewOrphan(old(Now()), Now())
      ensures locked == old(locked) && media == old(media)
      ensures Within(old(Now()), Now(), KeysOfAll(RowsOfMoment(momentId)))
      ensures dbReliable ==> ok
      ensures ok ==> forall k :: k in KeysOfAll(RowsOfMoment(momentId)) ==> k !in objects || k in queue
      ensures ok && storeReliable ==>
                queue == old(queue) && objects == old(objects) - KeysOfAll(RowsOfMoment(momentId))
    {
      assert RowsOf(userId, {momentId}) == RowsOfMoment(momentId);
      var deleted, queued;
      ok, deleted, queued := DeleteForMoments(userId, {momentId});
    }

    /** Mark the account deleted and revoke its sessions, before anything is destroyed. */
    method LockAccount(userId: string) returns (ok: bool)
      modifies this
      ensures objects == old(objects) && media == old(media) && queue == old(queue)
      ensures locked == old(locked) + {userId} || (!ok && locked == old(locked))
      ensures trail == old(trail) + [Now()]
      ensures dbReliable ==> ok
    {
      var landed: bool := *;
      ok := *;
      ok := ok || dbReliable;
      if ok || landed {
        locked := locked + {userId};
      }
      trail := trail + [Now()];
    }

    /** Deleting an account, wherever it stops and whether or not the media pipeline is available: no
        blob of anyone loses its owner, nothing is destroyed or tombstoned while the account is still
        usable, and a completed deletion leaves no row of the user. */
    method DeleteAccount(userId: string, mediaAvailable: bool) returns (ok: bool)
      modifies this
      ensures old(trail) <= trail && TrailOwned(trail, |old(trail)|, old(Now())) && NoNewOrphan(old(Now()), Now())
      ensures forall i :: |old(trail)| <= i < |trail| ==>
                userId in trail[i].locked || trail[i].(locked := old(locked)) == old(Now())
      ensures Within(old(Now()), Now(), KeysOfAll(old(RowsOfUser(userId))))
      ensures dbReliable ==> ok
      ensures ok ==> media == set r | r in old(media) && r.userId != userId
      ensures ok ==> forall k :: k in KeysOfAll(old(RowsOfUser(userId))) ==> k !in objects || k in queue
      ensures ok && mediaAvailable && storeReliable ==>
                queue == old(queue) && objects == old(objects) - KeysOfAll(old(RowsOfUser(userId)))
      ensures !mediaAvailable ==> objects == old(objects)
      ensures ok && !mediaAvailable ==> queue.Keys == old(queue).Keys + KeysOfAll(old(RowsOfUser(userId)))
    {
      ghost var start, from := Now(), |trail|;
      ok := LockAccount(userId);
      if !ok {
        return;
      }
      ghost var begun, trail' := Now(), trail;
      ok := DestroyAccount(userId, mediaAvailable);
      TrailOwnedExtends(start, begun, trail', trail, from);
    }

    /** Blobs or tombstones first, then the user row with everything that cascades from it. */
    method DestroyAccount(userId: string, mediaAvailable: bool) returns (ok: bool)
      modifies this
      ensures old(trail) <= trail && TrailOwned(trail, |old(trail)|, old(Now())) && NoNewOrphan(old(Now()), Now())
      ensures locked == old(locked) && Within(old(Now()), Now(), KeysOfAll(old(RowsOfUser(userId))))
      ensures dbReliable ==> ok
      ensures ok ==> media == set r | r in old(media) && r.userId != userId
      ensures ok ==> forall k :: k in KeysOfAll(old(RowsOfUser(userId))) ==> k !in objects || k in queue
      ensures ok && mediaAvailable && storeReliable ==>
                queue == old(queue) && objects == old(objects) - KeysOfAll(old(RowsOfUser(userId)))
      ensures !mediaAvailable ==> objects == old(objects)
      ensures ok && !mediaAvailable ==> queue.Keys == old(queue).Keys + KeysOfAll(old(RowsOfUser(userId)))
    {
      ghost var start, from := Now(), |trail|;
      var rows := RowsOfUser(userId);
      ok := ReleaseAccount(userId, mediaAvailable);
      if !ok {
        return;
      }
      ghost var before, trail' := Now(), trail;
      ok := CommitRowDeletion(rows);
      RowsGone(before, Now(), rows);
      TrailOwnedExtends(start, before, trail', trail, from);
    }

    /** The user's blobs deleted or tombstoned through the media pipeline, or all tombstoned without it. */
    method ReleaseAccount(userId: string, mediaAvailable: bool) returns (ok: bool)
      modifies this
      ensures old(trail) <= trail && TrailOwned(trail, |old(trail)|, old(Now())) && NoNewOrphan(old(Now()), Now())
      ensures locked == old(locked) && media == old(media)
      ensures Within(old(Now()), Now(), KeysOfAll(RowsOfUser(userId)))
      ensures dbReliable ==> ok
      ensures ok ==> forall k :: k in KeysOfAll(RowsOfUser(userId)) ==> k !in objects || k in queue
      ensures ok && mediaAvailable && storeReliable ==>
                queue == old(queue) && objects == old(objects) - KeysOfAll(RowsOfUser(userId))
      ensures !mediaAvailable ==> objects == old(objects)
      ensures ok && !mediaAvailable ==> queue.Keys == old(queue).Keys + KeysOfAll(RowsOfUser(userId))
    {
      ok := true;
      var rows := RowsOfUser(userId);
      if mediaAvailable && rows != {} {
        var moments := set r | r in rows :: r.momentId;
        var deleted, queued;
        assert RowsOf(userId, moments) == rows;
        ok, deleted, queued := DeleteForMoments(userId, moments);
      } else if rows != {} {
        ok := EnqueueAll(rows);
      }
    }

    /** One INSERT … SELECT statement tombstones every key of the rows. */
    method EnqueueAll(rows: set<Row>) returns (ok: bool)
      requires rows <= media
      modifies this
      ensures media == old(media) && objects == old(objects) && locked == old(locked)
      ensures queue.Keys == old(queue).Keys + KeysOfAll(rows) || (!ok && queue == old(queue))
      ensures ok ==> forall k :: k in KeysOfAll(rows) ==>
                k in queue && queue[k] == 1 + if k in old(queue) then old(queue)[k] else 0
      ensures Within(old(Now()), Now(), KeysOfAll(rows))
      ensures trail == old(trail) + [Now()]
      ensures dbReliable ==> ok
    {
      var landed: bool := *;
      ok := *;
      ok := ok || dbReliable;
      if ok || landed {
        queue := queue + map k | k in KeysOfAll(rows) :: if k in queue then queue[k] + 1 else 1;
      }
      trail := trail + [Now()];
    }
  }

  lemma {:induction false} KeysOfOneMore(rows: set<Row>, r: Row)
    ensures KeysOfAll(rows + {r}) == KeysOfAll(rows) + KeysOf(r)
  {
    assert forall k :: k in KeysOfAll(rows + {r}) ==> k in KeysOfAll(rows) + KeysOf(r);
  }

  lemma {:induction false} KeysOfAllSplit(rows: set<Row>, removed: set<Row>)
    requires removed <= rows
    ensures KeysOfAll(rows) == KeysOfAll(rows - removed) + KeysOfAll(removed)
  {
    forall k | k in KeysOfAll(rows)
      ensures k in KeysOfAll(rows - removed) + KeysOfAll(removed)
    {
      var r :| r in rows && k in KeysOf(r);
      assert r in removed || r in rows - removed;
    }
  }

  /** Rows may go once each of their keys is gone or tombstoned. */
  lemma {:induction false} RowsGone(before: World, after: World, rows: set<Row>)
    requires rows <= before.media && after.objects == before.objects && after.queue == before.queue
    requires after.media == before.media || after.media == before.media - rows
    requires forall k :: k in KeysOfAll(rows) ==> k !in before.objects || k in before.queue
    ensures NoNewOrphan(before, after)
  {
    KeysOfAllSplit(before.media, rows);
  }

  /** Removing rows and touching nothing else creates no orphan exactly when each of their stored keys
      is tombstoned or shared with a row that stays. */
  lemma {:induction false} RowsGoneUntombstoned(before: World, after: World, rows: set<Row>)
    requires rows <= before.media && after.objects == before.objects && after.queue == before.queue
    requires after.media == before.media - rows
    ensures NoNewOrphan(before, after) <==>
            forall k :: k in KeysOfAll(rows) && k in before.objects ==> k in before.queue || k in KeysOfAll(after.media)
  {
    KeysOfAllSplit(before.media, rows);
    forall k | NoNewOrphan(before, after) && k in KeysOfAll(rows) && k in before.objects
      ensures k in before.queue || k in KeysOfAll(after.media)
    {
      assert after.Orphan(k) ==> before.Orphan(k);
    }
  }

  /** Nothing that keeps within the keys of existing rows helps an orphan: it stays stored and unowned. */
  lemma {:induction false} OrphansStay(before: World, after: World, rows: set<Row>, key: string)
    requires rows <= before.media && after.media <= before.media && Within(before, after, KeysOfAll(rows))
    requires before.Orphan(key)
    ensures after.Orphan(key)
  {
    assert key !in KeysOfAll(rows) && key !in KeysOfAll(after.media);
  }
}
