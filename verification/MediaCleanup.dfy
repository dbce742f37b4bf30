/** The cleanup command: retry tombstoned blob deletions, then remove stored blobs that no row and no
    tombstone owns once they are old enough. */
module MediaCleanup {
  import opened Common
  import opened MediaLifecycle

  /** The blob is younger than the age guard; one whose modification time is unknown never is. */
  predicate Recent(lastModified: Option<int>, now: int, minAgeMs: int) {
    lastModified.Some? && now - lastModified.value < minAgeMs
  }

  /** `key.split("/")[0]` */
  function Owner(key: string): string {
    if key == "" || key[0] == '/' then "" else [key[0]] + Owner(key[1..])
  }

  /** Recent means modified less than the guard ago. */
  lemma {:induction false} RecentMeans(modified: int, now: int, minAgeMs: int)
    ensures Recent(Some(modified), now, minAgeMs) <==> now < modified + minAgeMs
  {}

  /** A key's owner is what stands before its first slash, or all of it. */
  lemma {:induction false} OwnerMeans(user: string, rest: string)
    requires '/' !in user
    ensures Owner(user + "/" + rest) == user && Owner(user) == user
  {
    if user != "" {
      OwnerMeans(user[1..], rest);
      assert (user + "/" + rest)[1..] == user[1..] + "/" + rest;
    } else {
      assert (user + "/" + rest)[0] == '/';
    }
  }

  datatype Report = Report(
    storedObjects: nat, validObjects: nat, queueDeleted: nat, queueRemaining: nat,
    orphans: nat, orphansSkippedRecent: nat, orphansDeleted: nat, dryRun: bool)

  /** A drained tombstone is one whose blob is gone; nothing outside the queue is touched. */
  ghost predicate Drained(before: World, after: World) {
    && after.media == before.media && after.locked == before.locked
    && after.queue.Keys <= before.queue.Keys
    && (forall k :: k in before.queue && k !in after.queue ==> k !in after.objects)
    && after.objects.Keys <= before.objects.Keys
    && (forall k :: k in before.objects && k !in before.queue ==> k in after.objects)
    && (forall k :: k in after.objects ==> after.objects[k] == before.objects[k])
  }

  lemma {:induction false} DrainedCompose(a: World, b: World, c: World)
    requires Drained(a, b) && NoNewOrphan(a, b) && Drained(b, c) && NoNewOrphan(b, c)
    ensures Drained(a, c) && NoNewOrphan(a, c)
  {}

  /** One iteration: any failure, of the blob delete or of removing the tombstone, keeps it for later. */
  method DrainOne(s: MediaStorage, key: string) returns (ok: bool, gone: bool)
    requires key in s.queue
    modifies s
    ensures old(s.trail) <= s.trail && TrailOwned(s.trail, |old(s.trail)|, old(s.Now()))
    ensures Drained(old(s.Now()), s.Now()) && NoNewOrphan(old(s.Now()), s.Now())
    ensures s.queue.Keys >= old(s.queue).Keys - {key} && (gone ==> key !in s.queue)
    ensures s.dbReliable ==> ok && (s.storeReliable ==> gone && key !in s.queue)
  {
    ok := true;
    gone := s.DeleteBlob(key);
    if gone {
      gone := s.RemoveTombstone(key);
    }
    if !gone {
      ok := s.BumpAttempts(key);
    }
  }

  /** What draining leaves when nothing fails. */
  function FullDrain(w: World): World {
    w.(objects := w.objects - w.queue.Keys, queue := map[])
  }

  /** The drain does not consult the table, so it spares every referenced blob exactly when none is
      endangered. */
  lemma {:induction false} DrainSparesReferencedIff(w: World)
    ensures (forall k :: k in w.objects && w.Referenced(k) ==> k in FullDrain(w).objects) <==>
            forall k :: !w.Endangered(k)
  {
    forall k | w.Endangered(k)
      ensures k in w.objects && w.Referenced(k) && k !in FullDrain(w).objects
    {}
    forall k | k in w.objects && w.Referenced(k) && !w.Endangered(k)
      ensures k in FullDrain(w).objects
    {}
  }

  /** It does not always: every stored blob of every row can be deleted from under it, by a deletion that
      tombstones the key and fails to commit, and the drain that follows. */
  lemma {:induction false} FailedCommitThenDrain(w: World, r: Row, key: string) returns (b: World, c: World, d: World)
    requires r in w.media && key in KeysOf(r) && key in w.objects
    ensures DeleteBlobStep(w, b, key, false) && EnqueueStep(b, c, key, true) && CommitStep(c, d, {r}, false)
    ensures key in d.objects && FullDrain(d).Referenced(key) && key !in FullDrain(d).objects
  {
    b, c, d := FailedCommitEndangers(w, r, key);
  }

  /** What a deleting cleanup leaves when nothing fails. */
  ghost function FullCleanup(w: World, now: int, minAgeMs: int): World {
    var drained := FullDrain(w);
    drained.(objects :=
      map k | k in drained.objects && (drained.Referenced(k) || Recent(drained.objects[k], now, minAgeMs))
        :: drained.objects[k])
  }

  /** Retry every tombstone once. */
  method DrainDeleteQueue(s: MediaStorage, apply: bool) returns (ok: bool, deleted: nat, remaining: nat)
    modifies s
    ensures old(s.trail) <= s.trail && TrailOwned(s.trail, |old(s.trail)|, old(s.Now()))
    ensures Drained(old(s.Now()), s.Now()) && NoNewOrphan(old(s.Now()), s.Now())
    ensures ok ==> deleted + remaining == |old(s.queue).Keys|
    ensures deleted <= |old(s.queue).Keys - s.queue.Keys|
    ensures s.dbReliable ==> ok
    ensures apply && s.dbReliable && s.storeReliable ==> s.Now() == FullDrain(old(s.Now())) && remaining == 0
    ensures !apply ==> ok && deleted == 0 && s.Now() == old(s.Now()) && s.trail == old(s.trail)
  {
    ok, deleted, remaining := true, 0, 0;
    var rows := s.queue.Keys;
    if !apply {
      return true, 0, |rows|;
    }
    ghost var start, removed := s.Now(), {};
    ok, deleted, remaining, removed := DrainRows(s, rows);
    SubsetIsSmaller(removed, rows - s.queue.Keys);
    if s.queue.Keys == {} {
      EmptyQueueIsFull(start, s.Now());
    }
  }

  lemma {:induction false} EmptyQueueIsFull(before: World, after: World)
    requires Drained(before, after) && after.queue.Keys == {}
    ensures after == FullDrain(before)
  {
    assert after.queue == map[];
    assert after.objects == before.objects - before.queue.Keys;
  }

  /** The loop over the tombstones; `removed` are those it saw both deletes succeed for. */
  method DrainRows(s: MediaStorage, rows: set<string>)
    returns (ok: bool, deleted: nat, remaining: nat, ghost removed: set<string>)
    requires rows == s.queue.Keys
    modifies s
    ensures old(s.trail) <= s.trail && TrailOwned(s.trail, |old(s.trail)|, old(s.Now()))
    ensures Drained(old(s.Now()), s.Now()) && NoNewOrphan(old(s.Now()), s.Now())
    ensures deleted == |removed| && removed <= rows && removed !! s.queue.Keys
    ensures ok ==> deleted + remaining == |rows|
    ensures s.dbReliable ==> ok
    ensures s.dbReliable && s.storeReliable ==> s.queue.Keys == {} && remaining == 0
  {
    ok, deleted, remaining, removed := true, 0, 0, {};
    var pending := rows;
    ghost var start, from := s.Now(), |s.trail|;
    while pending != {}
      invariant pending <= s.queue.Keys && deleted + remaining + |pending| == |rows|
      invariant deleted == |removed| && removed <= rows && removed !! s.queue.Keys
      invariant from == |old(s.trail)| && old(s.trail) <= s.trail && TrailOwned(s.trail, from, start)
      invariant Drained(start, s.Now()) && NoNewOrphan(start, s.Now())
      invariant s.dbReliable && s.storeReliable ==> s.queue.Keys == pending && remaining == 0
      decreases pending
    {
      var key :| key in pending;
      var gone;
      ok, gone := DrainNext(s, key, start, from);
      if !ok {
        return;
      }
      if gone {
        deleted, removed := deleted + 1, removed + {key};
      } else {
        remaining := remaining + 1;
      }
      pending := pending - {key};
    }
  }

  /** One more tombstone of a drain that began at `start`. */
  method DrainNext(s: MediaStorage, key: string, ghost start: World, ghost from: nat) returns (ok: bool, gone: bool)
    requires key in s.queue && from <= |s.trail| && TrailOwned(s.trail, from, start)
    requires Drained(start, s.Now()) && NoNewOrphan(start, s.Now())
    modifies s
    ensures old(s.trail) <= s.trail && TrailOwned(s.trail, from, start)
    ensures Drained(start, s.Now()) && NoNewOrphan(start, s.Now())
    ensures s.queue.Keys <= old(s.queue).Keys
    ensures s.queue.Keys >= old(s.queue).Keys - {key} && (gone ==> key !in s.queue)
    ensures s.dbReliable ==> ok && (s.storeReliable ==> gone && key !in s.queue)
  {
    ok, gone := DrainOne(s, key);
    DrainedCompose(start, old(s.Now()), s.Now());
    TrailOwnedExtends(start, old(s.Now()), old(s.trail), s.trail, from);
  }

  lemma {:induction false} SubsetIsSmaller(part: set<string>, whole: set<string>)
    requires part <= whole
    ensures |part| <= |whole|
  {
    assert whole == part + (whole - part);
  }

  function OwnedBy(keys: set<string>, owner: string): set<string> {
    set k | k in keys && Owner(k) == owner
  }

  /** What the keys deleted so far add up to per owner. */
  ghost predicate CountsPerOwner(perUser: map<string, nat>, keys: set<string>) {
    forall o :: |OwnedBy(keys, o)| == if o in perUser then perUser[o] else 0
  }

  lemma {:induction false} OwnedByOneMore(keys: set<string>, key: string, o: string)
    requires key !in keys
    ensures |OwnedBy(keys + {key}, o)| == |OwnedBy(keys, o)| + if Owner(key) == o then 1 else 0
  {
    assert OwnedBy(keys + {key}, o) == if Owner(key) == o then OwnedBy(keys, o) + {key} else OwnedBy(keys, o);
  }

  function OneMore(perUser: map<string, nat>, o: string): map<string, nat> {
    perUser[o := (if o in perUser then perUser[o] else 0) + 1]
  }

  lemma {:induction false} CountOneMore(perUser: map<string, nat>, keys: set<string>, key: string)
    requires CountsPerOwner(perUser, keys) && key !in keys
    ensures CountsPerOwner(OneMore(perUser, Owner(key)), keys + {key})
  {
    forall o
      ensures |OwnedBy(keys + {key}, o)| ==
              if o in OneMore(perUser, Owner(key)) then OneMore(perUser, Owner(key))[o] else 0
    {
      OwnedByOneMore(keys, key, o);
    }
  }

  /** Only what the table and the queue do not own, and what is old enough, may go. */
  ghost predicate OnlyOldOrphansGone(before: World, after: World, now: int, minAgeMs: int) {
    && after.media == before.media && after.queue == before.queue && after.locked == before.locked
    && after.objects.Keys <= before.objects.Keys
    && forall k :: k in before.objects ==>
         if k in after.objects then after.objects[k] == before.objects[k]
         else before.Orphan(k) && !Recent(before.objects[k], now, minAgeMs)
  }

  /** Of the keys visited, no orphan is left that is old enough to go. */
  ghost predicate Swept(w: World, visited: set<string>, now: int, minAgeMs: int) {
    forall k :: k in visited && w.Orphan(k) ==> Recent(w.objects[k], now, minAgeMs)
  }

  lemma {:induction false} SweptStep(a: World, b: World, c: World, visited: set<string>, key: string,
                                     now: int, minAgeMs: int)
    requires OnlyOldOrphansGone(a, b, now, minAgeMs) && Swept(b, visited, now, minAgeMs)
    requires key in b.objects && c.media == b.media && c.queue == b.queue && c.locked == b.locked
    requires c.objects == b.objects - {key} || c.objects == b.objects
    requires c.objects != b.objects ==> b.Orphan(key) && !Recent(b.objects[key], now, minAgeMs)
    requires c.Orphan(key) ==> Recent(c.objects[key], now, minAgeMs)
    ensures OnlyOldOrphansGone(a, c, now, minAgeMs) && Swept(c, visited + {key}, now, minAgeMs)
  {}

  lemma {:induction false} OnlyOldStep(a: World, b: World, c: World, key: string, now: int, minAgeMs: int)
    requires OnlyOldOrphansGone(a, b, now, minAgeMs)
    requires key in b.objects && c.media == b.media && c.queue == b.queue && c.locked == b.locked
    requires c.objects == b.objects - {key} || c.objects == b.objects
    requires c.objects != b.objects ==> b.Orphan(key) && !Recent(b.objects[key], now, minAgeMs)
    ensures OnlyOldOrphansGone(a, c, now, minAgeMs)
  {}

  datatype Verdict = Owned | TooRecent | OldOrphan

  /** One iteration: what the listed object is, and its removal if it is an old orphan. */
  method SweepOne(s: MediaStorage, key: string, valid: set<string>, stillQueued: set<string>,
                  lastModified: Option<int>, deleteOrphans: bool, minAgeMs: int, now: int)
    returns (ok: bool, v: Verdict)
    requires key in s.objects && lastModified == s.objects[key]
    requires valid == KeysOfAll(s.media) && stillQueued == s.queue.Keys
    modifies s
    ensures s.media == old(s.media) && s.queue == old(s.queue) && s.locked == old(s.locked)
    ensures old(s.trail) <= s.trail && TrailOwned(s.trail, |old(s.trail)|, old(s.Now()))
    ensures v == Owned <==> !old(s.Now()).Orphan(key)
    ensures v == TooRecent <==> old(s.Now()).Orphan(key) && Recent(lastModified, now, minAgeMs)
    ensures s.objects == old(s.objects) || (v == OldOrphan && deleteOrphans && s.objects == old(s.objects) - {key})
    ensures ok && v == OldOrphan && deleteOrphans ==> s.objects == old(s.objects) - {key}
    ensures v != OldOrphan || !deleteOrphans || s.storeReliable ==> ok
    ensures !deleteOrphans ==> s.trail == old(s.trail)
  {
    ok := true;
    if key in valid || key in stillQueued {
      v := Owned;
    } else if Recent(lastModified, now, minAgeMs) {
      v := TooRecent;
    } else {
      v := OldOrphan;
      if deleteOrphans {
        ok := s.DeleteBlob(key);
      }
    }
  }

  /** The loop's counters. */
  datatype Tally = Tally(orphans: nat, skippedRecent: nat, deleted: nat, perUser: map<string, nat>)
  {
    function Add(v: Verdict, deleteOrphans: bool, owner: string): Tally {
      match v
      case Owned => this
      case TooRecent => this.(skippedRecent := skippedRecent + 1)
      case OldOrphan =>
        if deleteOrphans then Tally(orphans + 1, skippedRecent, deleted + 1, OneMore(perUser, owner))
        else this.(orphans := orphans + 1)
    }
  }

  /** The orphan loop over the listed objects. */
  method RemoveOrphans(s: MediaStorage, deleteOrphans: bool, minAgeMs: int, now: int) returns (ok: bool, t: Tally)
    modifies s
    ensures old(s.trail) <= s.trail && TrailOwned(s.trail, |old(s.trail)|, old(s.Now()))
    ensures OnlyOldOrphansGone(old(s.Now()), s.Now(), now, minAgeMs)
    ensures s.storeReliable || !deleteOrphans ==> ok
    ensures ok ==> Sweeping(old(s.Now()), s.Now(), old(s.objects).Keys, t, deleteOrphans, now, minAgeMs)
    ensures !deleteOrphans ==> s.trail == old(s.trail)
  {
    ok, t := true, Tally(0, 0, 0, map[]);
    var valid := KeysOfAll(s.media);
    var stillQueued := s.queue.Keys;
    var stored := s.objects;
    var pending := stored.Keys;
    ghost var start, from, visited: set<string> := s.Now(), |s.trail|, {};
    NothingCounted(start, deleteOrphans, now, minAgeMs);
    while pending != {}
      invariant visited + pending == stored.Keys && visited !! pending && pending <= s.objects.Keys
      invariant from == |old(s.trail)| && old(s.trail) <= s.trail && TrailOwned(s.trail, from, start)
      invariant Sweeping(start, s.Now(), visited, t, deleteOrphans, now, minAgeMs)
      invariant !deleteOrphans ==> s.trail == old(s.trail)
      decreases pending
    {
      var key :| key in pending;
      ghost var before, trail' := s.Now(), s.trail;
      var v;
      ok, v := SweepOne(s, key, valid, stillQueued, stored[key], deleteOrphans, minAgeMs, now);
      TrailOwnedExtends(start, before, trail', s.trail, from);
      if !ok {
        OnlyOldStep(start, before, s.Now(), key, now, minAgeMs);
        return;
      }
      SweepingStep(start, before, s.Now(), visited, t, key, v, deleteOrphans, now, minAgeMs);
      t := t.Add(v, deleteOrphans, Owner(key));
      pending, visited := pending - {key}, visited + {key};
    }
    assert visited == stored.Keys;
  }

  function OldOrphans(w: World, keys: set<string>, now: int, minAgeMs: int): set<string> {
    set k | k in keys && w.Orphan(k) && !Recent(w.objects[k], now, minAgeMs)
  }

  function RecentOrphans(w: World, keys: set<string>, now: int, minAgeMs: int): set<string> {
    set k | k in keys && w.Orphan(k) && Recent(w.objects[k], now, minAgeMs)
  }

  /** Of the keys visited, so many were old orphans and so many recent ones. */
  ghost predicate Counted(a: World, visited: set<string>, orphans: nat, skippedRecent: nat, now: int, minAgeMs: int) {
    && orphans == |OldOrphans(a, visited, now, minAgeMs)|
    && skippedRecent == |RecentOrphans(a, visited, now, minAgeMs)|
  }

  lemma {:induction false} CountedStep(a: World, b: World, visited: set<string>, orphans: nat, skippedRecent: nat,
                                       key: string, v: Verdict, now: int, minAgeMs: int)
    requires Counted(a, visited, orphans, skippedRecent, now, minAgeMs) && key !in visited && key in b.objects
    requires OnlyOldOrphansGone(a, b, now, minAgeMs)
    requires v == Owned <==> !b.Orphan(key)
    requires v == TooRecent <==> b.Orphan(key) && Recent(b.objects[key], now, minAgeMs)
    ensures Counted(a, visited + {key}, if v == OldOrphan then orphans + 1 else orphans,
                    if v == TooRecent then skippedRecent + 1 else skippedRecent, now, minAgeMs)
  {
    assert a.Orphan(key) == b.Orphan(key) && a.objects[key] == b.objects[key];
    OrphansOneMore(a, visited, key, now, minAgeMs);
  }

  lemma {:induction false} OrphansOneMore(w: World, keys: set<string>, key: string, now: int, minAgeMs: int)
    requires key in w.objects
    ensures OldOrphans(w, keys + {key}, now, minAgeMs) ==
            OldOrphans(w, keys, now, minAgeMs)
            + if w.Orphan(key) && !Recent(w.objects[key], now, minAgeMs) then {key} else {}
    ensures RecentOrphans(w, keys + {key}, now, minAgeMs) ==
            RecentOrphans(w, keys, now, minAgeMs)
            + if w.Orphan(key) && Recent(w.objects[key], now, minAgeMs) then {key} else {}
  {
  }

  /** The loop's progress: only old orphans are gone, each counted for its owner; of the keys visited all
      are counted, and in a deleting run no old orphan is left. */
  ghost predicate Sweeping(a: World, w: World, visited: set<string>, t: Tally, deleteOrphans: bool,
                           now: int, minAgeMs: int)
  {
    && OnlyOldOrphansGone(a, w, now, minAgeMs)
    && (if deleteOrphans then Swept(w, visited, now, minAgeMs) else w == a)
    && Counted(a, visited, t.orphans, t.skippedRecent, now, minAgeMs)
    && t.deleted == (if deleteOrphans then t.orphans else 0)
    && CountsPerOwner(t.perUser, a.objects.Keys - w.objects.Keys)
    && (forall o :: o in t.perUser ==> t.perUser[o] > 0)
  }

  lemma {:induction false} NothingCounted(w: World, deleteOrphans: bool, now: int, minAgeMs: int)
    ensures Sweeping(w, w, {}, Tally(0, 0, 0, map[]), deleteOrphans, now, minAgeMs)
  {
    forall o
      ensures |OwnedBy(w.objects.Keys - w.objects.Keys, o)| == 0
    {
      assert OwnedBy(w.objects.Keys - w.objects.Keys, o) == {};
    }
    assert OldOrphans(w, {}, now, minAgeMs) == {} && RecentOrphans(w, {}, now, minAgeMs) == {};
  }

  lemma {:induction false} SweepingStep(a: World, b: World, c: World, visited: set<string>, t: Tally, key: string,
                                        v: Verdict, deleteOrphans: bool, now: int, minAgeMs: int)
    requires Sweeping(a, b, visited, t, deleteOrphans, now, minAgeMs) && key in b.objects && key !in visited
    requires c.media == b.media && c.queue == b.queue && c.locked == b.locked
    requires v == Owned <==> !b.Orphan(key)
    requires v == TooRecent <==> b.Orphan(key) && Recent(b.objects[key], now, minAgeMs)
    requires c.objects == if v == OldOrphan && deleteOrphans then b.objects - {key} else b.objects
    ensures Sweeping(a, c, visited + {key}, t.Add(v, deleteOrphans, Owner(key)), deleteOrphans, now, minAgeMs)
  {
    OnlyOldStep(a, b, c, key, now, minAgeMs);
    CountedStep(a, b, visited, t.orphans, t.skippedRecent, key, v, now, minAgeMs);
    if deleteOrphans {
      SweptStep(a, b, c, visited, key, now, minAgeMs);
      if v == OldOrphan {
        CountOneMore(t.perUser, a.objects.Keys - b.objects.Keys, key);
        assert a.objects.Keys - c.objects.Keys == a.objects.Keys - b.objects.Keys + {key};
      }
    }
  }

  /** What a whole run may remove: drained tombstones' blobs, and old orphans. */
  ghost predicate OnlyUnownedGone(before: World, after: World, now: int, minAgeMs: int) {
    forall k :: k in before.objects && k !in after.objects ==>
      k in before.queue || (before.Orphan(k) && !Recent(before.objects[k], now, minAgeMs))
  }

  /** The audit has an entry for each owner that still exists and lost an orphan, and it is their number. */
  ghost predicate Audited(audit: map<string, nat>, deleted: set<string>, users: set<string>) {
    && (forall o :: o in audit <==> o in users && OwnedBy(deleted, o) != {})
    && (forall o :: o in audit ==> audit[o] == |OwnedBy(deleted, o)|)
  }

  lemma {:induction false} AuditIsExact(perUser: map<string, nat>, deleted: set<string>, users: set<string>)
    requires CountsPerOwner(perUser, deleted) && forall o :: o in perUser ==> perUser[o] > 0
    ensures Audited(map o | o in perUser && o in users :: perUser[o], deleted, users)
  {
    forall o
      ensures o in perUser <==> OwnedBy(deleted, o) != {}
    {
      assert |OwnedBy(deleted, o)| == if o in perUser then perUser[o] else 0;
    }
  }

  /** What a finished run reports, of the state before it and the state that the drain of the queue left:
      tombstones deleted and remaining, objects stored and keys referenced, and the orphans old enough to
      go and those too recent. */
  ghost predicate Reported(report: Report, start: World, drained: World, now: int, minAgeMs: int) {
    && report.queueDeleted + report.queueRemaining == |start.queue.Keys|
    && report.queueDeleted <= |start.queue.Keys - drained.queue.Keys|
    && report.storedObjects == |drained.objects.Keys| && report.validObjects == |KeysOfAll(start.media)|
    && Counted(drained, drained.objects.Keys, report.orphans, report.orphansSkippedRecent, now, minAgeMs)
    && report.orphansDeleted == if report.dryRun then 0 else report.orphans
  }

  /** A completed deleting run leaves only blobs that are referenced, tombstoned or younger than the age
      guard. Wherever a run stops, it created no orphan, and a referenced blob it removed was one that
      the queue held. The report and the audit are exact: they count what was found and deleted. */
  method RunMediaCleanup(s: MediaStorage, deleteOrphans: bool, minAgeMinutes: int, now: int, users: set<string>)
    returns (ok: bool, report: Report, audit: map<string, nat>, ghost drained: World)
    modifies s
    ensures old(s.trail) <= s.trail && TrailOwned(s.trail, |old(s.trail)|, old(s.Now()))
    ensures s.media == old(s.media) && NoNewOrphan(old(s.Now()), s.Now())
    ensures OnlyUnownedGone(old(s.Now()), s.Now(), now, minAgeMinutes * 60000)
    ensures Drained(old(s.Now()), drained) && OnlyOldOrphansGone(drained, s.Now(), now, minAgeMinutes * 60000)
    ensures ok && deleteOrphans ==>
              forall k :: k in s.objects ==>
                s.Now().Referenced(k) || k in s.queue || Recent(s.objects[k], now, minAgeMinutes * 60000)
    ensures ok ==> Reported(report, old(s.Now()), drained, now, minAgeMinutes * 60000)
    ensures ok ==> report.dryRun == !deleteOrphans
    ensures ok ==> Audited(audit, drained.objects.Keys - s.objects.Keys, users)
    ensures s.dbReliable && s.storeReliable ==> ok
    ensures s.dbReliable && s.storeReliable && deleteOrphans ==>
              s.Now() == FullCleanup(old(s.Now()), now, minAgeMinutes * 60000) && report.queueRemaining == 0
    ensures !deleteOrphans ==> ok && drained == old(s.Now()) && s.Now() == old(s.Now()) && s.trail == old(s.trail)
  {
    report, audit := Report(0, 0, 0, 0, 0, 0, 0, !deleteOrphans), map[];
    ghost var start, from := s.Now(), |s.trail|;
    var retried, queueDeleted, queueRemaining := DrainDeleteQueue(s, deleteOrphans);
    drained := s.Now();
    ghost var trail' := s.trail;
    if !retried {
      DrainThenRemove(start, drained, drained, now, minAgeMinutes * 60000);
      return false, report, audit, drained;
    }
    var storedObjects, validObjects := |s.objects.Keys|, |KeysOfAll(s.media)|;
    var done, t := RemoveOrphans(s, deleteOrphans, minAgeMinutes * 60000, now);
    DrainThenRemove(start, drained, s.Now(), now, minAgeMinutes * 60000);
    if s.dbReliable && s.storeReliable && deleteOrphans {
      SweptIsFull(start, drained, s.Now(), now, minAgeMinutes * 60000);
    }
    TrailOwnedExtends(start, drained, trail', s.trail, from);
    if !done {
      return false, report, audit, drained;
    }
    report := Report(
      storedObjects, validObjects, queueDeleted, queueRemaining, t.orphans, t.skippedRecent, t.deleted, !deleteOrphans);
    audit := map o | o in t.perUser && o in users :: t.perUser[o];
    AuditIsExact(t.perUser, drained.objects.Keys - s.objects.Keys, users);
    ok := true;
  }

  lemma {:induction false} SweptIsFull(a: World, b: World, c: World, now: int, minAgeMs: int)
    requires b == FullDrain(a) && OnlyOldOrphansGone(b, c, now, minAgeMs) && Swept(c, c.objects.Keys, now, minAgeMs)
    ensures c == FullCleanup(a, now, minAgeMs)
  {
    forall k | k in c.objects
      ensures k in FullCleanup(a, now, minAgeMs).objects
    {
      assert c.Orphan(k) ==> Recent(c.objects[k], now, minAgeMs);
    }
    forall k | k in FullCleanup(a, now, minAgeMs).objects
      ensures k in c.objects
    {
      assert k in b.objects;
    }
    assert c.objects == FullCleanup(a, now, minAgeMs).objects;
  }

  lemma {:induction false} DrainThenRemove(a: World, b: World, c: World, now: int, minAgeMs: int)
    requires Drained(a, b) && NoNewOrphan(a, b) && OnlyOldOrphansGone(b, c, now, minAgeMs)
    ensures NoNewOrphan(a, c) && OnlyUnownedGone(a, c, now, minAgeMs)
  {
    forall k | k in a.objects && k !in c.objects && k !in a.queue
      ensures a.Orphan(k) && !Recent(a.objects[k], now, minAgeMs)
    {
      assert b.Orphan(k);
    }
  }

  /** A referenced blob that the queue does not hold survives every run, wherever it stops. */
  lemma {:induction false} ReferencedBlobsSurvive(before: World, after: World, now: int, minAgeMs: int, k: string)
    requires OnlyUnownedGone(before, after, now, minAgeMs)
    requires k in before.objects && before.Referenced(k) && k !in before.queue
    ensures k in after.objects
  {}

  /** An unknown modification time bypasses the age guard, however large it is. */
  lemma {:induction false} UnknownAgeIsNeverRecent(now: int, minAgeMs: int, lastModified: Option<int>)
    ensures (forall now', minAgeMs' :: !Recent(lastModified, now', minAgeMs')) <==> lastModified.None?
  {
    if lastModified.Some? {
      assert Recent(lastModified, lastModified.value, 1);
    }
  }
}
