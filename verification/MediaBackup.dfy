/** Two-phase, fail-closed backup of every database-referenced media object to a second store under
    an authenticated inventory written last; its verification; and restore into a third store. */
module MediaBackup {
  import opened Common
  import opened ObjectStores

  const INVENTORY_NAME := "inventory.json"

  datatype Row = Row(storageKey: string, thumbKey: Option<string>)

  datatype Entry = Entry(key: string, bytes: int, sha256: string)

  datatype Body = Body(
    formatVersion: int, kind: string, stamp: string, createdAt: string,
    sourceRole: string, destinationRole: string, backupPrefix: string, sourceFingerprint: string,
    expectedObjectCount: int, objectCount: int, totalBytes: int, completeness: string,
    objects: seq<Entry>, notes: seq<string>)

  datatype Inventory = Inventory(body: Body, mac: string)

  /** Digests, the canonical text the MAC covers, the JSON text of inventories, the fingerprint of a
      store identity, and the fixed notes every inventory carries. */
  datatype Tools = Tools(
    prims: Primitives, canonical: Body -> string, encode: Inventory -> Bytes, decode: Bytes -> Parsed<Inventory>,
    fingerprint: string -> string, notes: seq<string>)
  {
    ghost predicate Sound() {
      prims.WellFormed() && forall inv :: decode(encode(inv)) == Document(inv)
    }
  }

  datatype Target = Target(store: Store, identity: string)

  // ---------------------------------------------------------------- referenced keys

  predicate Referenced(rows: seq<Row>, key: string) {
    exists r :: r in rows && (key == r.storageKey || (r.thumbKey == Some(key) && key != ""))
  }

  predicate Less(a: string, b: string) {
    b != "" && (a == "" || a[0] < b[0] || (a[0] == b[0] && Less(a[1..], b[1..])))
  }

  lemma {:induction false} LessTransitive(a: string, b: string, c: string)
    requires Less(a, b) && Less(b, c)
    ensures Less(a, c)
  {
    if a != "" && a[0] == b[0] == c[0] {
      LessTransitive(a[1..], b[1..], c[1..]);
    }
  }

  lemma {:induction false} LessTotal(a: string, b: string)
    ensures a == b || Less(a, b) || Less(b, a)
    ensures !(Less(a, b) && Less(b, a)) && !Less(a, a)
  {
    if a != "" && b != "" {
      LessTotal(a[1..], b[1..]);
      LessTotal(a[1..], a[1..]);
      assert a == [a[0]] + a[1..] && b == [b[0]] + b[1..];
    } else if a != "" {
      LessTotal(a[1..], a[1..]);
    }
  }

  /** One string comes before another if it is a proper part of its start, or smaller where they first differ. */
  lemma {:induction false} LessMeans(a: string, b: string)
    ensures Less(a, b) <==> a < b || exists i: nat :: SmallerAt(a, b, i)
  {
    if a != "" && b != "" && a[0] == b[0] {
      LessMeans(a[1..], b[1..]);
      assert a < b <==> a[1..] < b[1..] by {
        assert a == [a[0]] + a[1..] && b == [b[0]] + b[1..];
      }
      if i: nat :| SmallerAt(a[1..], b[1..], i) {
        assert a[..i + 1] == [a[0]] + a[1..][..i] && b[..i + 1] == [b[0]] + b[1..][..i];
        assert SmallerAt(a, b, i + 1);
      }
      if i: nat :| SmallerAt(a, b, i) {
        assert a[1..][..i - 1] == a[..i][1..] && b[1..][..i - 1] == b[..i][1..];
        assert SmallerAt(a[1..], b[1..], i - 1);
      }
    } else if a != "" && b != "" {
      assert a[0] < b[0] ==> SmallerAt(a, b, 0);
      forall i: nat | SmallerAt(a, b, i)
        ensures i == 0
      {
        SameStart(a, b, i);
      }
    }
  }

  lemma {:induction false} SameStart(a: string, b: string, i: nat)
    requires i <= |a| && i <= |b| && a[..i] == b[..i]
    ensures forall j :: 0 <= j < i ==> a[j] == b[j]
  {
    forall j | 0 <= j < i
      ensures a[j] == b[j]
    {
      assert a[..i][j] == a[j] && b[..i][j] == b[j];
    }
  }

  ghost predicate SmallerAt(a: string, b: string, i: nat) {
    i < |a| && i < |b| && a[..i] == b[..i] && a[i] < b[i]
  }

  predicate Sorted(keys: seq<string>) {
    forall i, j :: 0 <= i < j < |keys| ==> Less(keys[i], keys[j])
  }

  /** Sorted insertion without duplicates. */
  function Insert(keys: seq<string>, k: string): seq<string> {
    if keys == [] || Less(k, keys[0]) then [k] + keys
    else if keys[0] == k then keys
    else [keys[0]] + Insert(keys[1..], k)
  }

  lemma {:induction false} InsertSorted(keys: seq<string>, k: string)
    requires Sorted(keys)
    ensures Sorted(Insert(keys, k))
    ensures forall x :: x in Insert(keys, k) <==> x in keys || x == k
  {
    if keys != [] {
      LessTotal(k, keys[0]);
      if Less(k, keys[0]) {
        forall i | 0 < i < |keys|
          ensures Less(k, keys[i])
        {
          LessTransitive(k, keys[0], keys[i]);
        }
      } else if k != keys[0] {
        InsertSorted(keys[1..], k);
        var rest := Insert(keys[1..], k);
        assert forall i :: 0 <= i < |rest| ==> rest[i] in rest;
        assert forall x :: x in keys[1..] ==> Less(keys[0], x);
      }
    }
  }

  /** The distinct keys the database refers to, in order. */
  method ReferencedKeys(rows: seq<Row>) returns (keys: seq<string>)
    ensures Sorted(keys)
    ensures forall k :: k in keys <==> Referenced(rows, k)
  {
    keys := [];
    for i := 0 to |rows|
      invariant Sorted(keys)
      invariant forall k :: k in keys <==> Referenced(rows[..i], k)
    {
      var r := rows[i];
      assert rows[..i + 1] == rows[..i] + [r];
      InsertSorted(keys, r.storageKey);
      keys := Insert(keys, r.storageKey);
      if r.thumbKey.Some? && r.thumbKey.value != "" {
        InsertSorted(keys, r.thumbKey.value);
        keys := Insert(keys, r.thumbKey.value);
      }
    }
    assert rows[..|rows|] == rows;
  }

  // ---------------------------------------------------------------- inventories

  function Prefix(stamp: string): string {
    "media/" + stamp + "/"
  }

  function InventoryKey(stamp: string): string {
    Prefix(stamp) + INVENTORY_NAME
  }

  lemma {:induction false} KeysDiffer(prefix: string, a: string, b: string)
    requires a != b
    ensures prefix + a != prefix + b
  {
    assert (prefix + a)[|prefix|..] == a && (prefix + b)[|prefix|..] == b;
  }

  /** The stored object has the recorded size and digest. */
  predicate Stored(objects: Objects, key: string, e: Entry, prims: Primitives) {
    key in objects && |objects[key]| == e.bytes && prims.sha256(objects[key]) == e.sha256
  }

  predicate AllStored(objects: Objects, prefix: string, entries: seq<Entry>, prims: Primitives) {
    forall e :: e in entries ==> Stored(objects, prefix + e.key, e, prims)
  }

  /** The entries record exactly the given keys, with the size and digest of the source objects. */
  ghost predicate Records(entries: seq<Entry>, keys: seq<string>, source: Objects, prims: Primitives) {
    && |entries| == |keys|
    && forall i :: 0 <= i < |keys| ==>
         keys[i] in source && entries[i] == Entry(keys[i], |source[keys[i]]|, prims.sha256(source[keys[i]]))
  }

  function TotalBytes(entries: seq<Entry>): int {
    if entries == [] then 0 else entries[0].bytes + TotalBytes(entries[1..])
  }

  function Mac(body: Body, key: Bytes, t: Tools): string {
    t.prims.hmac(key, t.canonical(body))
  }

  function BuildInventory(entries: seq<Entry>, expected: int, stamp: string, createdAt: string, identity: string,
                          key: Bytes, t: Tools): Inventory
  {
    var body := Body(2, "media-s3-inventory", stamp, createdAt, "primary-media", "media-backup", Prefix(stamp),
                     t.fingerprint(identity), expected, |entries|, TotalBytes(entries), "complete", entries,
                     t.notes);
    Inventory(body, Mac(body, key, t))
  }

  predicate ShapeOk(inv: Inventory) {
    && inv.body.formatVersion == 2 && inv.body.kind == "media-s3-inventory"
    && IsHex64(inv.mac)
    && inv.body.completeness == "complete"
    && (forall e :: e in inv.body.objects ==> e.bytes >= 0 && IsHex64(e.sha256))
    && inv.body.objectCount == |inv.body.objects|
    && inv.body.expectedObjectCount == inv.body.objectCount
  }

  predicate Authentic(inv: Inventory, key: Bytes, t: Tools) {
    SameDigest(Mac(inv.body, key, t), inv.mac)
  }

  /** A complete, authenticated inventory whose every object is stored as recorded. */
  predicate BackupVerifies(inv: Inventory, objects: Objects, key: Bytes, t: Tools) {
    ShapeOk(inv) && Authentic(inv, key, t) && AllStored(objects, inv.body.backupPrefix, inv.body.objects, t.prims)
  }

  /** MAIN: what verification of a media backup vouches for, spelled out: the inventory's mac is the HMAC of the
      canonical text of its own body, its counts agree, and every listed object is stored with the recorded size
      and digest. */
  lemma {:induction false} BackupVerifiesMeans(inv: Inventory, objects: Objects, key: Bytes, t: Tools)
    requires t.prims.WellFormed()
    ensures BackupVerifies(inv, objects, key, t) <==>
            && inv.mac == t.prims.hmac(key, t.canonical(inv.body))
            && inv.body.formatVersion == 2 && inv.body.kind == "media-s3-inventory"
            && inv.body.completeness == "complete"
            && inv.body.expectedObjectCount == inv.body.objectCount == |inv.body.objects|
            && forall o :: o in inv.body.objects ==>
                 && IsHex64(o.sha256)
                 && inv.body.backupPrefix + o.key in objects && |objects[inv.body.backupPrefix + o.key]| == o.bytes
                 && t.prims.sha256(objects[inv.body.backupPrefix + o.key]) == o.sha256
  {
    InventoryMacMeans(inv, key, t);
    if AllStored(objects, inv.body.backupPrefix, inv.body.objects, t.prims) {
      forall o | o in inv.body.objects
        ensures o.bytes >= 0
      {
        assert Stored(objects, inv.body.backupPrefix + o.key, o, t.prims);
      }
    }
  }

  lemma {:induction false} InventoryMacMeans(inv: Inventory, key: Bytes, t: Tools)
    requires t.prims.WellFormed()
    ensures IsHex64(inv.mac) && Authentic(inv, key, t) <==> inv.mac == t.prims.hmac(key, t.canonical(inv.body))
  {
    if IsHex64(inv.mac) {
      SameDigestIsEquality(t.prims.hmac(key, t.canonical(inv.body)), inv.mac);
    }
  }

  /** An inventory that keeps its mac under another body, well-shaped and listing what is stored, is accepted exactly
      if HMAC does not tell the canonical texts of the two bodies apart. */
  lemma {:induction false} AlteredInventoryIff(inv: Inventory, body: Body, objects: Objects, key: Bytes, t: Tools)
    requires t.prims.WellFormed() && BackupVerifies(inv, objects, key, t)
    requires ShapeOk(Inventory(body, inv.mac)) && AllStored(objects, body.backupPrefix, body.objects, t.prims)
    ensures BackupVerifies(Inventory(body, inv.mac), objects, key, t) <==>
            t.prims.hmac(key, t.canonical(body)) == t.prims.hmac(key, t.canonical(inv.body))
  {
    InventoryMacMeans(inv, key, t);
    InventoryMacMeans(Inventory(body, inv.mac), key, t);
  }

  /** The inventory that a backup builds, spelled out. */
  lemma {:induction false} BuiltInventoryMeans(entries: seq<Entry>, expected: int, stamp: string, createdAt: string,
                                               identity: string, key: Bytes, t: Tools)
    ensures var inv := BuildInventory(entries, expected, stamp, createdAt, identity, key, t);
            && inv.mac == t.prims.hmac(key, t.canonical(inv.body))
            && inv.body.objects == entries && inv.body.objectCount == |entries|
            && inv.body.expectedObjectCount == expected && inv.body.totalBytes == TotalBytes(entries)
            && inv.body.stamp == stamp && inv.body.createdAt == createdAt && inv.body.completeness == "complete"
            && inv.body.formatVersion == 2 && inv.body.kind == "media-s3-inventory"
            && InventoryKey(stamp) == "media/" + stamp + "/" + "inventory.json"
            && inv.body.backupPrefix == "media/" + stamp + "/" && inv.body.sourceFingerprint == t.fingerprint(identity)
            && inv.body.sourceRole == "primary-media" && inv.body.destinationRole == "media-backup"
            && inv.body.notes == t.notes
  {}

  /** The total is the sum of the sizes. */
  lemma {:induction false} TotalBytesIsSum(a: seq<Entry>, e: Entry)
    ensures TotalBytes([]) == 0 && TotalBytes(a + [e]) == TotalBytes(a) + e.bytes
  {
    if a == [] {
      assert [] + [e] == [e] && [e][1..] == [];
    } else {
      TotalBytesIsSum(a[1..], e);
      assert (a + [e])[1..] == a[1..] + [e];
    }
  }

  // ---------------------------------------------------------------- backup

  datatype BackupResult =
    | Threw
    | Done(inventory: Option<Inventory>, complete: bool, expected: nat, copied: nat, skippedIdentical: nat,
           verifiedAtDestination: nat, missingAtSource: seq<string>, failedAtDestination: seq<string>, applied: bool)

  predicate NoCollision(rows: seq<Row>) {
    !Referenced(rows, INVENTORY_NAME)
  }

  ghost predicate Absent(trail: seq<Objects>, from: nat, key: string) {
    forall i :: from <= i < |trail| ==> key !in trail[i]
  }

  ghost function SetKeys(stamp: string, keys: seq<string>): set<string> {
    (set k | k in keys :: Prefix(stamp) + k) + {InventoryKey(stamp)}
  }

  /** Phase A: read and hash every referenced source object. */
  method ScanSource(source: Store, keys: seq<string>, t: Tools)
    returns (entries: seq<Entry>, blobs: map<string, Bytes>, missing: seq<string>)
    ensures missing == [] ==> Records(entries, keys, source.objects, t.prims)
    ensures missing == [] ==> forall k :: k in keys ==>
              k in blobs && k in source.objects && blobs[k] == source.objects[k]
    ensures forall k :: k in blobs ==> k in source.objects && blobs[k] == source.objects[k]
    ensures |entries| + |missing| == |keys|
    ensures forall k :: k in keys && k !in source.objects ==> k in missing
    ensures source.reliable ==> forall k :: k in missing ==> k in keys && k !in source.objects
  {
    entries, blobs, missing := [], map[], [];
    for i := 0 to |keys|
      invariant missing == [] ==> Records(entries, keys[..i], source.objects, t.prims)
      invariant missing == [] ==>
                  forall k :: k in keys[..i] ==> k in blobs && k in source.objects && blobs[k] == source.objects[k]
      invariant forall k :: k in blobs ==> k in source.objects && blobs[k] == source.objects[k]
      invariant |entries| + |missing| == i
      invariant forall k :: k in keys[..i] && k !in source.objects ==> k in missing
      invariant source.reliable ==> forall k :: k in missing ==> k in keys && k !in source.objects
    {
      assert keys[..i + 1] == keys[..i] + [keys[i]];
      var blob := source.Get(keys[i]);
      if blob.Found? {
        blobs := blobs[keys[i] := blob.data];
        entries := entries + [Entry(keys[i], |blob.data|, t.prims.sha256(blob.data))];
      } else {
        missing := missing + [keys[i]];
      }
    }
    assert keys[..|keys|] == keys;
  }

  /** The bytes at hand are what the entries record. */
  predicate Blobs(entries: seq<Entry>, blobs: map<string, Bytes>, prims: Primitives) {
    forall e :: e in entries ==> e.key in blobs && e.bytes == |blobs[e.key]| && e.sha256 == prims.sha256(blobs[e.key])
  }

  /** Something of the recorded digest is there already. */
  predicate Has(objects: Objects, key: string, e: Entry, prims: Primitives) {
    key in objects && prims.sha256(objects[key]) == e.sha256
  }

  /** Apart from the keys excepted, nothing changed but what was to be copied and was not there already. */
  ghost predicate Spared(before: Objects, objects: Objects, prefix: string, entries: seq<Entry>, except: set<string>,
                         prims: Primitives)
  {
    && before.Keys <= objects.Keys
    && forall k :: k in before && k !in except && objects[k] != before[k] ==>
         exists e :: e in entries && k == prefix + e.key && !Has(before, k, e, prims)
  }

  ghost predicate SparedAll(before: Objects, trail: seq<Objects>, from: nat, objects: Objects, prefix: string,
                            entries: seq<Entry>, prims: Primitives)
  {
    && Spared(before, objects, prefix, entries, {}, prims)
    && forall i :: from <= i < |trail| ==> Spared(before, trail[i], prefix, entries, {}, prims)
  }

  lemma {:induction false} SparedStep(before: Objects, b: Objects, c: Objects, prefix: string, entries: seq<Entry>,
                                      e: Entry, prims: Primitives)
    requires Spared(before, b, prefix, entries, {}, prims) && e in entries
    requires Touched(b, c, {prefix + e.key})
    requires Has(b, prefix + e.key, e, prims) ==> c == b
    ensures Spared(before, c, prefix, entries, {}, prims)
  {
    forall k | k in before && c[k] != before[k]
      ensures exists e :: e in entries && k == prefix + e.key && !Has(before, k, e, prims)
    {
      if b[k] == before[k] {
        assert k == prefix + e.key && !Has(before, k, e, prims);
      }
    }
  }

  lemma {:induction false} SparedAllStep(before: Objects, trail: seq<Objects>, from: nat, b: Objects,
                                         trail': seq<Objects>, c: Objects, prefix: string, entries: seq<Entry>,
                                         e: Entry, prims: Primitives)
    requires SparedAll(before, trail, from, b, prefix, entries, prims) && e in entries
    requires trail' == trail || trail' == trail + [c]
    requires Touched(b, c, {prefix + e.key})
    requires Has(b, prefix + e.key, e, prims) ==> c == b
    ensures SparedAll(before, trail', from, c, prefix, entries, prims)
  {
    SparedStep(before, b, c, prefix, entries, e, prims);
    assert forall i :: 0 <= i < |trail| ==> trail'[i] == trail[i];
  }

  /** One object, unless something of its digest is already there. */
  method CopyOne(backup: Store, stamp: string, e: Entry, blob: Bytes, t: Tools) returns (ok: bool, skipped: bool)
    modifies backup
    ensures old(backup.trail) <= backup.trail
    ensures backup.trail == old(backup.trail) || backup.trail == old(backup.trail) + [backup.objects]
    ensures ok ==> (skipped <==> backup.trail == old(backup.trail))
    ensures Has(old(backup.objects), Prefix(stamp) + e.key, e, t.prims) ==>
              backup.objects == old(backup.objects) && backup.trail == old(backup.trail)
    ensures Touched(old(backup.objects), backup.objects, {Prefix(stamp) + e.key})
    ensures backup.reliable ==> ok
    ensures backup.reliable && t.prims.CollisionFreeOn(old(backup.objects).Values + {blob})
            && e.sha256 == t.prims.sha256(blob) ==>
              backup.objects == old(backup.objects)[Prefix(stamp) + e.key := blob]
    ensures InventoryKey(stamp) !in old(backup.objects) && e.key != INVENTORY_NAME ==>
              InventoryKey(stamp) !in backup.objects
  {
    ok, skipped := false, false;
    if e.key != INVENTORY_NAME {
      KeysDiffer(Prefix(stamp), e.key, INVENTORY_NAME);
    }
    var existing := backup.Get(Prefix(stamp) + e.key);
    if existing.Unreadable? {
      return;
    }
    if existing.Found? && t.prims.sha256(existing.data) == e.sha256 {
      assert existing.data in backup.objects.Values;
      return true, true;
    }
    ok := backup.Put(Prefix(stamp) + e.key, blob);
  }

  /** Phase B: copy every object that is not already there. */
  method CopyAll(backup: Store, stamp: string, entries: seq<Entry>, keys: seq<string>, blobs: map<string, Bytes>,
                 t: Tools)
    returns (ok: bool, copied: nat, skippedIdentical: nat)
    requires forall e :: e in entries ==> e.key in blobs && e.key in keys
    modifies backup
    ensures old(backup.trail) <= backup.trail
    ensures Touched(old(backup.objects), backup.objects, SetKeys(stamp, keys))
    ensures ok ==> copied + skippedIdentical == |entries| && |backup.trail| == |old(backup.trail)| + copied
    ensures backup.reliable ==> ok
    ensures backup.reliable && t.prims.CollisionFreeOn(old(backup.objects).Values + blobs.Values)
            && Blobs(entries, blobs, t.prims) ==>
              AllStored(backup.objects, Prefix(stamp), entries, t.prims)
    ensures InventoryKey(stamp) !in old(backup.objects) && INVENTORY_NAME !in keys ==>
              InventoryKey(stamp) !in backup.objects && Absent(backup.trail, |old(backup.trail)|, InventoryKey(stamp))
    ensures SparedAll(old(backup.objects), backup.trail, |old(backup.trail)|, backup.objects, Prefix(stamp), entries,
                      t.prims)
  {
    ok, copied, skippedIdentical := false, 0, 0;
    ghost var good :=
      && backup.reliable && t.prims.CollisionFreeOn(backup.objects.Values + blobs.Values)
      && Blobs(entries, blobs, t.prims);
    ghost var start, from := backup.objects, |backup.trail|;
    for i := 0 to |entries|
      invariant copied + skippedIdentical == i && |backup.trail| == |old(backup.trail)| + copied
      invariant old(backup.trail) <= backup.trail
      invariant Copying(start, backup.trail, from, backup.objects, stamp, entries, keys, t.prims)
      invariant good ==> backup.objects.Values <= old(backup.objects).Values + blobs.Values
      invariant good ==> AllStored(backup.objects, Prefix(stamp), entries[..i], t.prims)
    {
      var e := entries[i];
      assert e in entries;
      ghost var before, trail := backup.objects, backup.trail;
      var one, skipped := CopyOne(backup, stamp, e, blobs[e.key], t);
      CopyingStep(start, trail, from, before, backup.trail, backup.objects, stamp, entries, keys, e, t.prims);
      if !one {
        return;
      }
      if good {
        assert blobs[e.key] in blobs.Values;
        CopyStep(before, backup.objects, Prefix(stamp), entries, blobs, i, t.prims);
      }
      if skipped {
        skippedIdentical := skippedIdentical + 1;
      } else {
        copied := copied + 1;
      }
    }
    assert entries[..|entries|] == entries;
    ok := true;
  }

  /** What any number of copies, the last of which may have failed, leaves. */
  ghost predicate Copying(start: Objects, trail: seq<Objects>, from: nat, objects: Objects, stamp: string,
                          entries: seq<Entry>, keys: seq<string>, prims: Primitives)
  {
    && Touched(start, objects, SetKeys(stamp, keys))
    && SparedAll(start, trail, from, objects, Prefix(stamp), entries, prims)
    && (InventoryKey(stamp) !in start && INVENTORY_NAME !in keys ==>
          InventoryKey(stamp) !in objects && Absent(trail, from, InventoryKey(stamp)))
  }

  lemma {:induction false} CopyingStep(start: Objects, trail: seq<Objects>, from: nat, b: Objects,
                                       trail': seq<Objects>, c: Objects, stamp: string, entries: seq<Entry>,
                                       keys: seq<string>, e: Entry, prims: Primitives)
    requires Copying(start, trail, from, b, stamp, entries, keys, prims) && e in entries && e.key in keys
    requires trail' == trail || trail' == trail + [c]
    requires Touched(b, c, {Prefix(stamp) + e.key})
    requires Has(b, Prefix(stamp) + e.key, e, prims) ==> c == b
    requires InventoryKey(stamp) !in b && e.key != INVENTORY_NAME ==> InventoryKey(stamp) !in c
    ensures Copying(start, trail', from, c, stamp, entries, keys, prims)
  {
    assert Prefix(stamp) + e.key in SetKeys(stamp, keys);
    SparedAllStep(start, trail, from, b, trail', c, Prefix(stamp), entries, e, prims);
    assert forall i :: 0 <= i < |trail| ==> trail'[i] == trail[i];
  }

  lemma {:induction false} CopyStep(before: Objects, after: Objects, prefix: string, entries: seq<Entry>,
                                    blobs: map<string, Bytes>,
                                    i: nat, prims: Primitives)
    requires i < |entries| && Blobs(entries, blobs, prims)
    requires AllStored(before, prefix, entries[..i], prims)
    requires after == before[prefix + entries[i].key := blobs[entries[i].key]]
    ensures AllStored(after, prefix, entries[..i + 1], prims)
  {
    forall e | e in entries[..i + 1]
      ensures Stored(after, prefix + e.key, e, prims)
    {
      assert e in entries;
      if e.key != entries[i].key {
        KeysDiffer(prefix, e.key, entries[i].key);
        assert e in entries[..i];
      }
    }
  }

  /** Phase B: then re-read and check every destination object. */
  method CheckAll(backup: Store, stamp: string, entries: seq<Entry>, t: Tools)
    returns (ok: bool, verified: nat, failed: seq<string>)
    ensures backup.reliable ==> ok
    ensures ok ==> verified + |failed| == |entries|
    ensures ok ==> (failed == [] <==> AllStored(backup.objects, Prefix(stamp), entries, t.prims))
  {
    ok, verified, failed := false, 0, [];
    for i := 0 to |entries|
      invariant verified + |failed| == i
      invariant failed == [] <==> AllStored(backup.objects, Prefix(stamp), entries[..i], t.prims)
    {
      var e := entries[i];
      assert entries[..i + 1] == entries[..i] + [e];
      var written := backup.Get(Prefix(stamp) + e.key);
      if written.Unreadable? {
        return;
      }
      if written.Missing? || |written.data| != e.bytes || t.prims.sha256(written.data) != e.sha256 {
        failed := failed + [e.key];
      } else {
        verified := verified + 1;
      }
    }
    assert entries[..|entries|] == entries;
    ok := true;
  }

  /** An inventory that exists came after every object it must list; on a faithful store it is there as
      written; and one that is there as written parses as such and verifies. */
  ghost predicate InventoryHonest(objects: Objects, stamp: string, entries: seq<Entry>, inventory: Inventory,
                                  faithful: bool, key: Bytes, t: Tools)
  {
    InventoryKey(stamp) in objects ==>
      && AllStored(objects, Prefix(stamp), entries, t.prims)
      && (faithful ==> objects[InventoryKey(stamp)] == t.encode(inventory))
      && (objects[InventoryKey(stamp)] == t.encode(inventory) ==>
            t.decode(objects[InventoryKey(stamp)]) == Document(inventory) && BackupVerifies(inventory, objects, key, t))
  }

  /** The inventory lists exactly the referenced keys, with what the source holds under them. */
  ghost predicate ListsReferenced(inventory: Inventory, rows: seq<Row>, source: Objects, stamp: string,
                                  createdAt: string, identity: string, key: Bytes, entries: seq<Entry>,
                                  keys: seq<string>, t: Tools)
  {
    && Sorted(keys) && (forall k :: k in keys <==> Referenced(rows, k))
    && Records(entries, keys, source, t.prims)
    && inventory == BuildInventory(entries, |keys|, stamp, createdAt, identity, key, t)
  }

  /** MAIN: back up. Nothing is written unless every referenced object was read. Then, whatever write is
      corrupted, and wherever the process dies: in every state of the backup store (none before held an
      inventory) an inventory that exists came after every object it must list, and if it is there as
      written, as it always is on a store that corrupts nothing, it lists exactly the referenced keys and
      verifies. The same holds of the store that is left behind, whether the run returned or threw. */
  method Backup(rows: seq<Row>, source: Target, backup: Target, stamp: string, createdAt: string, key: Bytes,
                apply: bool, t: Tools)
    returns (r: BackupResult, ghost inventory: Option<Inventory>, ghost entries: seq<Entry>, ghost keys: seq<string>)
    requires source.store == backup.store ==> source.identity == backup.identity
    requires t.Sound()
    modifies backup.store
    ensures old(backup.store.trail) <= backup.store.trail
    ensures t.fingerprint(source.identity) == t.fingerprint(backup.identity) ==> r == Threw
    ensures Sorted(keys) && forall k :: k in keys ==> Referenced(rows, k)
    ensures r.Done? ==> (forall k :: k in keys <==> Referenced(rows, k)) && r.expected == |keys|
    ensures inventory.Some? ==>
              ListsReferenced(inventory.value, rows, old(source.store.objects), stamp, createdAt, source.identity, key,
                              entries, keys, t)
    ensures backup.store.trail != old(backup.store.trail) || backup.store.objects != old(backup.store.objects) ==>
              apply && inventory.Some?
    ensures inventory.Some? && InventoryKey(stamp) !in old(backup.store.objects) && NoCollision(rows) ==>
              forall i :: |old(backup.store.trail)| <= i < |backup.store.trail| ==>
                InventoryHonest(backup.store.trail[i], stamp, entries, inventory.value, backup.store.faithful, key, t)
    ensures inventory.Some? && InventoryKey(stamp) !in old(backup.store.objects) && NoCollision(rows) ==>
              InventoryHonest(backup.store.objects, stamp, entries, inventory.value, backup.store.faithful, key, t)
    ensures inventory.Some? && NoCollision(rows) ==>
              && RerunState(old(backup.store.objects), backup.store.objects, stamp, entries, inventory.value,
                            backup.store.faithful, t)
              && forall i :: |old(backup.store.trail)| <= i < |backup.store.trail| ==>
                   RerunState(old(backup.store.objects), backup.store.trail[i], stamp, entries, inventory.value,
                              backup.store.faithful, t)
    ensures r.Done? && r.complete ==>
              && inventory.Some? && r.inventory == inventory
              && r.applied == apply && r.missingAtSource == [] && r.failedAtDestination == []
    ensures r.Done? && r.complete && apply ==>
              && r.copied + r.skippedIdentical == r.expected == r.verifiedAtDestination
              && |backup.store.trail| == |old(backup.store.trail)| + r.copied + 1
              && InventoryKey(stamp) in backup.store.objects
              && (backup.store.faithful || backup.store.reliable ==>
                    backup.store.objects[InventoryKey(stamp)] == t.encode(inventory.value))
    ensures r.Done? && r.complete && apply && NoCollision(rows) ==>
              AllStored(backup.store.objects, Prefix(stamp), entries, t.prims)
    ensures r.Done? && !r.complete ==> r.inventory == None && (r.missingAtSource != [] || r.failedAtDestination != [])
    ensures Touched(old(backup.store.objects), backup.store.objects, SetKeys(stamp, keys))
    ensures source.store.reliable && backup.store.reliable
            && t.prims.CollisionFreeOn(old(backup.store.objects).Values + old(source.store.objects).Values)
            && t.fingerprint(source.identity) != t.fingerprint(backup.identity) ==>
              r.Done? && (r.complete <==> forall k :: Referenced(rows, k) ==> k in old(source.store.objects))
  {
    r, inventory, entries, keys := Threw, None, [], [];
    if t.fingerprint(source.identity) == t.fingerprint(backup.identity) {
      return;
    }
    var referenced := ReferencedKeys(rows);
    keys := referenced;
    var found, blobs, missing := ScanSource(source.store, referenced, t);
    if missing != [] {
      assert missing[0] in missing;
      r := Done(None, false, |referenced|, 0, 0, 0, missing, [], false);
      return;
    }
    EntryKeys(found, referenced, source.store.objects, t.prims);
    var built := BuildInventory(found, |referenced|, stamp, createdAt, source.identity, key, t);
    inventory, entries := Some(built), found;
    if !apply {
      NothingCopied(backup.store.objects, stamp, found, built, backup.store.faithful, t);
      r := Done(Some(built), true, |referenced|, 0, 0, 0, [], [], false);
      return;
    }
    BlobsRecord(found, referenced, source.store.objects, blobs, t.prims);
    r := CopyAndCommit(backup.store, stamp, found, referenced, blobs, built, t);
    HonestStates(backup.store.trail, |old(backup.store.trail)|, found, referenced, old(source.store.objects), stamp,
                 createdAt, source.identity, key, t);
    HonestState(backup.store.objects, found, referenced, old(source.store.objects), stamp, createdAt, source.identity,
                key, t);
  }

  lemma {:induction false} NothingCopied(objects: Objects, stamp: string, entries: seq<Entry>, inventory: Inventory,
                                         faithful: bool, t: Tools)
    ensures RerunState(objects, objects, stamp, entries, inventory, faithful, t)
  {}

  lemma {:induction false} BlobsRecord(entries: seq<Entry>, keys: seq<string>, source: Objects,
                                       blobs: map<string, Bytes>, prims: Primitives)
    requires Records(entries, keys, source, prims)
    requires forall k :: k in keys ==> k in blobs && k in source && blobs[k] == source[k]
    requires forall k :: k in blobs ==> k in source && blobs[k] == source[k]
    ensures Blobs(entries, blobs, prims)
    ensures forall seen :: prims.CollisionFreeOn(seen + source.Values) ==> prims.CollisionFreeOn(seen + blobs.Values)
  {
    forall e | e in entries
      ensures e.key in blobs && e.bytes == |blobs[e.key]| && e.sha256 == prims.sha256(blobs[e.key])
    {
      var i :| 0 <= i < |entries| && entries[i] == e;
      assert keys[i] in keys;
    }
    assert blobs.Values <= source.Values;
  }

  lemma {:induction false} HonestState(objects: Objects, entries: seq<Entry>, keys: seq<string>, source: Objects,
                                       stamp: string, createdAt: string, identity: string, key: Bytes, t: Tools)
    requires t.Sound() && Records(entries, keys, source, t.prims)
    ensures var inv := BuildInventory(entries, |keys|, stamp, createdAt, identity, key, t);
            t.decode(t.encode(inv)) == Document(inv)
            && (AllStored(objects, Prefix(stamp), entries, t.prims) ==> BackupVerifies(inv, objects, key, t))
  {
    if AllStored(objects, Prefix(stamp), entries, t.prims) {
      CompletedBackupVerifies(entries, keys, source, objects, stamp, createdAt, identity, key, t);
    }
  }

  lemma {:induction false} HonestStates(trail: seq<Objects>, from: nat, entries: seq<Entry>, keys: seq<string>,
                                        source: Objects, stamp: string, createdAt: string, identity: string,
                                        key: Bytes, t: Tools)
    requires t.Sound() && Records(entries, keys, source, t.prims)
    ensures var inv := BuildInventory(entries, |keys|, stamp, createdAt, identity, key, t);
            forall i :: from <= i < |trail| && AllStored(trail[i], Prefix(stamp), entries, t.prims) ==>
              t.decode(t.encode(inv)) == Document(inv) && BackupVerifies(inv, trail[i], key, t)
  {
    forall i | from <= i < |trail| && AllStored(trail[i], Prefix(stamp), entries, t.prims)
      ensures BackupVerifies(BuildInventory(entries, |keys|, stamp, createdAt, identity, key, t), trail[i], key, t)
    {
      CompletedBackupVerifies(entries, keys, source, trail[i], stamp, createdAt, identity, key, t);
    }
  }

  /** Nothing but what was to be copied and was not there already changed so far; and an inventory that is
      there is the one that was, or came after every object it must list. */
  ghost predicate RerunState(before: Objects, objects: Objects, stamp: string, entries: seq<Entry>,
                             inventory: Inventory, faithful: bool, t: Tools)
  {
    && Spared(before, objects, Prefix(stamp), entries, {InventoryKey(stamp)}, t.prims)
    && (InventoryKey(stamp) in objects ==>
          || (InventoryKey(stamp) in before && objects[InventoryKey(stamp)] == before[InventoryKey(stamp)])
          || (&& AllStored(objects, Prefix(stamp), entries, t.prims)
              && (faithful ==> objects[InventoryKey(stamp)] == t.encode(inventory))))
  }

  lemma {:induction false} CopyingIsRerun(before: Objects, objects: Objects, stamp: string, entries: seq<Entry>,
                                          inventory: Inventory, faithful: bool, t: Tools)
    requires Spared(before, objects, Prefix(stamp), entries, {}, t.prims)
    requires forall e :: e in entries ==> e.key != INVENTORY_NAME
    requires InventoryKey(stamp) !in before ==> InventoryKey(stamp) !in objects
    ensures RerunState(before, objects, stamp, entries, inventory, faithful, t)
  {
    forall e | e in entries
      ensures Prefix(stamp) + e.key != InventoryKey(stamp)
    {
      KeysDiffer(Prefix(stamp), e.key, INVENTORY_NAME);
    }
  }

  lemma {:induction false} CopyingsAreReruns(before: Objects, trail: seq<Objects>, from: nat, objects: Objects,
                                             stamp: string, entries: seq<Entry>, inventory: Inventory, faithful: bool,
                                             t: Tools)
    requires SparedAll(before, trail, from, objects, Prefix(stamp), entries, t.prims)
    requires forall e :: e in entries ==> e.key != INVENTORY_NAME
    requires InventoryKey(stamp) !in before ==>
               InventoryKey(stamp) !in objects && Absent(trail, from, InventoryKey(stamp))
    ensures RerunState(before, objects, stamp, entries, inventory, faithful, t)
    ensures forall i :: from <= i < |trail| ==> RerunState(before, trail[i], stamp, entries, inventory, faithful, t)
  {
    CopyingIsRerun(before, objects, stamp, entries, inventory, faithful, t);
    forall i | from <= i < |trail|
      ensures RerunState(before, trail[i], stamp, entries, inventory, faithful, t)
    {
      CopyingIsRerun(before, trail[i], stamp, entries, inventory, faithful, t);
    }
  }

  lemma {:induction false} CommitIsRerun(before: Objects, b: Objects, c: Objects, stamp: string, entries: seq<Entry>,
                                         inventory: Inventory, faithful: bool, t: Tools)
    requires Spared(before, b, Prefix(stamp), entries, {}, t.prims)
    requires RerunState(before, b, stamp, entries, inventory, faithful, t)
    requires Touched(b, c, {InventoryKey(stamp)}) && AllStored(c, Prefix(stamp), entries, t.prims)
    requires faithful ==> c == b || c == b[InventoryKey(stamp) := t.encode(inventory)]
    ensures RerunState(before, c, stamp, entries, inventory, faithful, t)
  {}

  /** Phase B: copy, check, and write the inventory last. */
  method CopyAndCommit(store: Store, stamp: string, entries: seq<Entry>, keys: seq<string>, blobs: map<string, Bytes>,
                       inventory: Inventory, t: Tools)
    returns (r: BackupResult)
    requires |entries| == |keys| && Blobs(entries, blobs, t.prims) && forall e :: e in entries ==> e.key in keys
    modifies store
    ensures old(store.trail) <= store.trail
    ensures r.Done? ==> r.applied && r.expected == |keys| && r.missingAtSource == []
    ensures r.Done? && r.complete ==>
              && r.inventory == Some(inventory) && r.failedAtDestination == []
              && r.copied + r.skippedIdentical == r.expected == r.verifiedAtDestination
              && InventoryKey(stamp) in store.objects && |store.trail| == |old(store.trail)| + r.copied + 1
    ensures r.Done? && r.complete && INVENTORY_NAME !in keys ==>
              AllStored(store.objects, Prefix(stamp), entries, t.prims)
    ensures r.Done? && !r.complete ==> r.inventory == None && r.failedAtDestination != []
    ensures InventoryKey(stamp) !in old(store.objects) && INVENTORY_NAME !in keys ==>
              forall i :: |old(store.trail)| <= i < |store.trail| && InventoryKey(stamp) in store.trail[i] ==>
                && AllStored(store.trail[i], Prefix(stamp), entries, t.prims)
                && (store.faithful ==> store.trail[i][InventoryKey(stamp)] == t.encode(inventory))
    ensures INVENTORY_NAME !in keys ==>
              && RerunState(old(store.objects), store.objects, stamp, entries, inventory, store.faithful, t)
              && forall i :: |old(store.trail)| <= i < |store.trail| ==>
                   RerunState(old(store.objects), store.trail[i], stamp, entries, inventory, store.faithful, t)
    ensures r.Done? && r.complete && (store.faithful || store.reliable) ==>
              store.objects[InventoryKey(stamp)] == t.encode(inventory)
    ensures Touched(old(store.objects), store.objects, SetKeys(stamp, keys))
    ensures store.reliable && t.prims.CollisionFreeOn(old(store.objects).Values + blobs.Values) ==>
              r.Done? && r.complete
  {
    r := Threw;
    ghost var start, from := store.objects, |store.trail|;
    var ok, copied, skipped := CopyAll(store, stamp, entries, keys, blobs, t);
    if INVENTORY_NAME !in keys {
      CopyingsAreReruns(start, store.trail, from, store.objects, stamp, entries, inventory, store.faithful, t);
    }
    if !ok {
      return;
    }
    var checked, verified, failed := CheckAll(store, stamp, entries, t);
    if !checked {
      return;
    }
    if failed != [] {
      r := Done(None, false, |keys|, copied, skipped, verified, [], failed, true);
      return;
    }
    ghost var before := store.objects;
    var put := store.Put(InventoryKey(stamp), t.encode(inventory));
    if INVENTORY_NAME !in keys {
      InventoryKeepsSet(before, store.objects, stamp, entries, t.prims);
      CommitIsRerun(start, before, store.objects, stamp, entries, inventory, store.faithful, t);
    }
    if !put {
      return;
    }
    r := Done(Some(inventory), true, |keys|, copied, skipped, verified, [], [], true);
  }

  // ---------------------------------------------------------------- backing up again

  /** The objects of the listed keys, where there are any, are what the list records. */
  predicate SameObjects(listed: seq<Entry>, source: Objects, prims: Primitives) {
    forall e :: e in listed && e.key in source ==> prims.sha256(source[e.key]) == e.sha256
  }

  lemma {:induction false} SparedKeepsListed(before: Objects, objects: Objects, prefix: string, entries: seq<Entry>,
                                             keys: seq<string>, except: set<string>, listed: seq<Entry>,
                                             source: Objects, prims: Primitives)
    requires Spared(before, objects, prefix, entries, except, prims) && Records(entries, keys, source, prims)
    requires AllStored(before, prefix, listed, prims) && SameObjects(listed, source, prims)
    requires forall e :: e in listed ==> prefix + e.key !in except
    ensures AllStored(objects, prefix, listed, prims)
  {
    forall e | e in listed
      ensures Stored(objects, prefix + e.key, e, prims)
    {
      var k := prefix + e.key;
      assert Stored(before, k, e, prims);
      forall f | f in entries && k == prefix + f.key
        ensures Has(before, k, f, prims)
      {
        if f.key != e.key {
          KeysDiffer(prefix, f.key, e.key);
        }
        RecordedDigest(entries, keys, source, f, prims);
      }
    }
  }

  lemma {:induction false} RecordedDigest(entries: seq<Entry>, keys: seq<string>, source: Objects, e: Entry,
                                          prims: Primitives)
    requires Records(entries, keys, source, prims) && e in entries
    ensures e.key in source && e.sha256 == prims.sha256(source[e.key])
  {
    var i :| 0 <= i < |entries| && entries[i] == e;
    assert keys[i] in source;
  }

  /** The inventory that is there parses and verifies. */
  predicate InventoryOk(objects: Objects, stamp: string, key: Bytes, t: Tools) {
    && InventoryKey(stamp) in objects && t.decode(objects[InventoryKey(stamp)]).Document?
    && t.decode(objects[InventoryKey(stamp)]).value.body.backupPrefix == Prefix(stamp)
    && BackupVerifies(t.decode(objects[InventoryKey(stamp)]).value, objects, key, t)
  }

  lemma {:induction false} RerunIsOk(before: Objects, objects: Objects, stamp: string, entries: seq<Entry>,
                                     keys: seq<string>, source: Objects, createdAt: string, identity: string,
                                     key: Bytes, t: Tools)
    requires t.Sound() && Records(entries, keys, source, t.prims) && InventoryOk(before, stamp, key, t)
    requires var listed := t.decode(before[InventoryKey(stamp)]).value.body.objects;
             SameObjects(listed, source, t.prims) && forall e :: e in listed ==> e.key != INVENTORY_NAME
    requires RerunState(before, objects, stamp, entries,
                        BuildInventory(entries, |keys|, stamp, createdAt, identity, key, t), true, t)
    ensures InventoryOk(objects, stamp, key, t)
  {
    var old' := t.decode(before[InventoryKey(stamp)]).value;
    if objects[InventoryKey(stamp)] == before[InventoryKey(stamp)] {
      forall e | e in old'.body.objects
        ensures Prefix(stamp) + e.key !in {InventoryKey(stamp)}
      {
        KeysDiffer(Prefix(stamp), e.key, INVENTORY_NAME);
      }
      SparedKeepsListed(before, objects, Prefix(stamp), entries, keys, {InventoryKey(stamp)}, old'.body.objects,
                        source, t.prims);
    } else {
      HonestState(objects, entries, keys, source, stamp, createdAt, identity, key, t);
    }
  }

  lemma {:induction false} RerunsAreOk(before: Objects, trail: seq<Objects>, from: nat, stamp: string,
                                       entries: seq<Entry>, keys: seq<string>, source: Objects, createdAt: string,
                                       identity: string, key: Bytes, t: Tools)
    requires t.Sound() && Records(entries, keys, source, t.prims) && InventoryOk(before, stamp, key, t)
    requires var listed := t.decode(before[InventoryKey(stamp)]).value.body.objects;
             SameObjects(listed, source, t.prims) && forall e :: e in listed ==> e.key != INVENTORY_NAME
    requires var inventory := BuildInventory(entries, |keys|, stamp, createdAt, identity, key, t);
             forall i :: from <= i < |trail| ==> RerunState(before, trail[i], stamp, entries, inventory, true, t)
    ensures forall i :: from <= i < |trail| ==> InventoryOk(trail[i], stamp, key, t)
  {
    forall i | from <= i < |trail|
      ensures InventoryOk(trail[i], stamp, key, t)
    {
      RerunIsOk(before, trail[i], stamp, entries, keys, source, createdAt, identity, key, t);
    }
  }

  /** MAIN: backing up again over a completed backup is safe, whatever throws and wherever it dies: on a store
      that corrupts nothing the inventory that is there verifies in every state, if the source objects of the
      keys it lists are still the ones it records. */
  method BackupAgain(rows: seq<Row>, source: Target, backup: Target, stamp: string, createdAt: string, key: Bytes,
                     t: Tools)
    returns (r: BackupResult)
    requires source.store == backup.store ==> source.identity == backup.identity
    requires backup.store.faithful && t.Sound() && NoCollision(rows)
    requires InventoryOk(backup.store.objects, stamp, key, t)
    requires var listed := t.decode(backup.store.objects[InventoryKey(stamp)]).value.body.objects;
             && SameObjects(listed, source.store.objects, t.prims)
             && forall e :: e in listed ==> e.key != INVENTORY_NAME
    modifies backup.store
    ensures old(backup.store.trail) <= backup.store.trail && InventoryOk(backup.store.objects, stamp, key, t)
    ensures forall i :: |old(backup.store.trail)| <= i < |backup.store.trail| ==>
              InventoryOk(backup.store.trail[i], stamp, key, t)
  {
    ghost var before, from, inventory, entries, keys := backup.store.objects, |backup.store.trail|, None, [], [];
    ghost var held := source.store.objects;
    r, inventory, entries, keys := Backup(rows, source, backup, stamp, createdAt, key, true, t);
    if inventory.Some? {
      RerunIsOk(before, backup.store.objects, stamp, entries, keys, held, createdAt, source.identity, key, t);
      RerunsAreOk(before, backup.store.trail, from, stamp, entries, keys, held, createdAt, source.identity, key,
                  t);
    }
  }

  /** The condition is exact: writing over an object of a completed backup leaves one that verifies if and only
      if what is stored has the recorded size and digest. */
  lemma {:induction false} RewriteIsOkIff(objects: Objects, stamp: string, key: Bytes, e: Entry, data: Bytes, t: Tools)
    requires InventoryOk(objects, stamp, key, t) && e.key != INVENTORY_NAME
    requires e in t.decode(objects[InventoryKey(stamp)]).value.body.objects
    ensures InventoryOk(objects[Prefix(stamp) + e.key := data], stamp, key, t) <==>
            |data| == e.bytes && t.prims.sha256(data) == e.sha256
  {
    KeysDiffer(Prefix(stamp), e.key, INVENTORY_NAME);
    var k := Prefix(stamp) + e.key;
    var after, listed := objects[k := data], t.decode(objects[InventoryKey(stamp)]).value.body.objects;
    assert Stored(objects, k, e, t.prims);
    if |data| == e.bytes && t.prims.sha256(data) == e.sha256 {
      forall f | f in listed
        ensures Stored(after, Prefix(stamp) + f.key, f, t.prims)
      {
        assert Stored(objects, Prefix(stamp) + f.key, f, t.prims);
      }
    }
  }

  lemma {:induction false} EntryKeys(entries: seq<Entry>, keys: seq<string>, source: Objects, prims: Primitives)
    requires Records(entries, keys, source, prims)
    ensures forall e :: e in entries ==> e.key in keys
    ensures forall k :: k in keys ==> exists e :: e in entries && e.key == k
  {
    forall k | k in keys
      ensures exists e :: e in entries && e.key == k
    {
      var i :| 0 <= i < |keys| && keys[i] == k;
      assert entries[i] in entries;
    }
  }

  lemma {:induction false} InventoryKeepsSet(before: Objects, after: Objects, stamp: string, entries: seq<Entry>,
                                             prims: Primitives)
    requires AllStored(before, Prefix(stamp), entries, prims)
    requires forall e :: e in entries ==> e.key != INVENTORY_NAME
    requires Touched(before, after, {InventoryKey(stamp)})
    ensures AllStored(after, Prefix(stamp), entries, prims)
  {
    forall e | e in entries
      ensures Stored(after, Prefix(stamp) + e.key, e, prims)
    {
      KeysDiffer(Prefix(stamp), e.key, INVENTORY_NAME);
    }
  }

  /** When the commit itself would break the set: writing the inventory over a complete copy leaves it
      complete exactly when no referenced object bears the inventory's name, or it has its very bytes. */
  lemma {:induction false} CommitKeepsSetIff(before: Objects, stamp: string, entries: seq<Entry>, text: Bytes,
                                             prims: Primitives)
    requires AllStored(before, Prefix(stamp), entries, prims)
    ensures AllStored(before[InventoryKey(stamp) := text], Prefix(stamp), entries, prims) <==>
            forall e :: e in entries && e.key == INVENTORY_NAME ==> e.bytes == |text| && e.sha256 == prims.sha256(text)
  {
    var after := before[InventoryKey(stamp) := text];
    forall e | e in entries && e.key != INVENTORY_NAME
      ensures Stored(after, Prefix(stamp) + e.key, e, prims)
    {
      KeysDiffer(Prefix(stamp), e.key, INVENTORY_NAME);
      assert Stored(before, Prefix(stamp) + e.key, e, prims);
    }
  }

  // ---------------------------------------------------------------- verify

  datatype VerifyResult = VerifyResult(ok: bool, objectCount: nat, verified: nat, missing: nat, altered: nat)

  function CountMissing(objects: Objects, prefix: string, entries: seq<Entry>): nat {
    if entries == [] then 0
    else CountMissing(objects, prefix, Init(entries)) + if prefix + Last(entries).key in objects then 0 else 1
  }

  /** None when a read threw; otherwise `ok` says exactly whether the backup verifies, and every
      object of an authenticated inventory is counted once. */
  method Verify(inv: Inventory, backup: Store, key: Bytes, t: Tools) returns (r: Option<VerifyResult>)
    ensures backup.reliable ==> r.Some?
    ensures r.Some? ==> (r.value.ok <==> BackupVerifies(inv, backup.objects, key, t))
    ensures r.Some? && r.value.ok && t.prims.WellFormed() ==> inv.mac == t.prims.hmac(key, t.canonical(inv.body))
    ensures r.Some? && ShapeOk(inv) && Authentic(inv, key, t) ==>
              && r.value.verified + r.value.missing + r.value.altered == |inv.body.objects| == r.value.objectCount
              && r.value.missing == CountMissing(backup.objects, inv.body.backupPrefix, inv.body.objects)
  {
    if t.prims.WellFormed() {
      InventoryMacMeans(inv, key, t);
    }
    if !ShapeOk(inv) {
      return Some(VerifyResult(false, 0, 0, 0, 0));
    }
    if !Authentic(inv, key, t) {
      return Some(VerifyResult(false, |inv.body.objects|, 0, 0, 0));
    }
    var objects := inv.body.objects;
    var verified, missing, altered := 0, 0, 0;
    for i := 0 to |objects|
      invariant verified + missing + altered == i
      invariant verified == i <==> AllStored(backup.objects, inv.body.backupPrefix, objects[..i], t.prims)
      invariant missing == CountMissing(backup.objects, inv.body.backupPrefix, objects[..i])
    {
      var o := objects[i];
      assert Init(objects[..i + 1]) == objects[..i];
      assert objects[..i + 1] == objects[..i] + [o];
      var blob := backup.Get(inv.body.backupPrefix + o.key);
      if blob.Unreadable? {
        return None;
      }
      if blob.Missing? {
        missing := missing + 1;
      } else if |blob.data| != o.bytes || t.prims.sha256(blob.data) != o.sha256 {
        altered := altered + 1;
      } else {
        verified := verified + 1;
      }
    }
    assert objects[..|objects|] == objects;
    return Some(VerifyResult(missing == 0 && altered == 0 && verified == inv.body.expectedObjectCount,
                             |objects|, verified, missing, altered));
  }

  /** What a completed backup stored passes verification. */
  lemma {:induction false} CompletedBackupVerifies(entries: seq<Entry>, keys: seq<string>, source: Objects,
                                                   objects: Objects, stamp: string, createdAt: string,
                                                   identity: string, key: Bytes, t: Tools)
    requires t.prims.WellFormed() && Records(entries, keys, source, t.prims)
    requires AllStored(objects, Prefix(stamp), entries, t.prims)
    ensures BackupVerifies(BuildInventory(entries, |keys|, stamp, createdAt, identity, key, t), objects, key, t)
  {}

  // ---------------------------------------------------------------- restore

  datatype RestoreResult =
    | Refused
    | Failed
    | Restored(restored: nat, skippedIdentical: nat, failedVerify: nat, applied: bool)

  /** The destination holds something of the recorded digest at the object's original key. */
  ghost predicate Recovered(dest: Objects, o: Entry, prims: Primitives) {
    o.key in dest && prims.sha256(dest[o.key]) == o.sha256
  }

  ghost predicate AllRecovered(dest: Objects, objects: seq<Entry>, prims: Primitives) {
    forall o :: o in objects ==> Recovered(dest, o, prims)
  }

  /** Nothing changed but at keys whose backup object has the recorded size and digest, and on a faithful store
      what is there now is that object: bytes that were not verified are never written. */
  ghost predicate OnlyVerified(before: Objects, after: Objects, prefix: string, objects: seq<Entry>, backup: Objects,
                               faithful: bool, prims: Primitives)
  {
    forall k :: k in after && (k !in before || after[k] != before[k]) ==>
      exists o :: o in objects && o.key == k && prefix + k in backup
                  && |backup[prefix + k]| == o.bytes && prims.sha256(backup[prefix + k]) == o.sha256
                  && (faithful ==> after[k] == backup[prefix + k])
  }

  lemma {:induction false} OnlyVerifiedStep(a: Objects, b: Objects, c: Objects, prefix: string, objects: seq<Entry>,
                                            o: Entry, backup: Objects, faithful: bool, prims: Primitives)
    requires OnlyVerified(a, b, prefix, objects, backup, faithful, prims) && o in objects
    requires OnlyVerified(b, c, prefix, [o], backup, faithful, prims) && Touched(b, c, {o.key})
    ensures OnlyVerified(a, c, prefix, objects, backup, faithful, prims)
  {
    forall k | k in c && (k !in a || c[k] != a[k])
      ensures exists o :: o in objects && o.key == k && prefix + k in backup
                          && |backup[prefix + k]| == o.bytes && prims.sha256(backup[prefix + k]) == o.sha256
                          && (faithful ==> c[k] == backup[prefix + k])
    {
      if k in b && c[k] == b[k] {
        assert k !in a || b[k] != a[k];
      }
    }
  }

  datatype ObjectOutcome = ObjectThrew | ObjectFailed | ObjectSkipped | ObjectRestored

  /** One iteration of the restore loop. */
  method RestoreOne(o: Entry, prefix: string, backup: Store, destination: Store, apply: bool, t: Tools)
    returns (r: ObjectOutcome)
    requires backup != destination
    modifies destination
    ensures r == ObjectSkipped ==> destination.trail == old(destination.trail)
    ensures r == ObjectRestored ==> |destination.trail| == |old(destination.trail)| + 1
    ensures !apply ==>
              && destination.objects == old(destination.objects)
              && (r == ObjectSkipped || r == ObjectFailed || r == ObjectThrew)
    ensures Touched(old(destination.objects), destination.objects, {o.key})
    ensures r == ObjectSkipped || r == ObjectRestored ==> Stored(backup.objects, prefix + o.key, o, t.prims)
    ensures apply && (r == ObjectSkipped || r == ObjectRestored) ==> Recovered(destination.objects, o, t.prims)
    ensures backup.reliable && destination.reliable && Stored(backup.objects, prefix + o.key, o, t.prims) ==>
              r == ObjectSkipped || r == ObjectRestored
    ensures OnlyVerified(old(destination.objects), destination.objects, prefix, [o], backup.objects,
                         destination.faithful, t.prims)
  {
    var blob := backup.Get(prefix + o.key);
    if blob.Unreadable? {
      return ObjectThrew;
    }
    if blob.Missing? || |blob.data| != o.bytes || t.prims.sha256(blob.data) != o.sha256 {
      return ObjectFailed;
    }
    if !apply {
      return ObjectSkipped;
    }
    var existing := destination.Get(o.key);
    if existing.Unreadable? {
      return ObjectThrew;
    }
    if existing.Found? && t.prims.sha256(existing.data) == o.sha256 {
      return ObjectSkipped;
    }
    var put := destination.Put(o.key, blob.data);
    if !put {
      return ObjectThrew;
    }
    var written := destination.Get(o.key);
    if written.Unreadable? {
      return ObjectThrew;
    }
    return if written.Missing? || t.prims.sha256(written.data) != o.sha256 then ObjectFailed else ObjectRestored;
  }

  lemma {:induction false} TouchedMore(a: Objects, b: Objects, c: Objects, keys: set<string>, k: string)
    requires Touched(a, b, keys) && Touched(b, c, {k}) && k in keys
    ensures Touched(a, c, keys)
  {}

  method RestoreAll(objects: seq<Entry>, prefix: string, backup: Store, destination: Store, apply: bool, t: Tools)
    returns (r: RestoreResult)
    requires backup != destination
    modifies destination
    ensures r.Failed? || r.Restored?
    ensures !apply ==> destination.objects == old(destination.objects)
    ensures r.Restored? && apply ==> r.restored + r.skippedIdentical + r.failedVerify == |objects|
    ensures r.Restored? && !apply ==> r.restored == r.skippedIdentical == 0
    ensures r.Restored? && r.failedVerify == 0 ==> |destination.trail| == |old(destination.trail)| + r.restored
    ensures backup.reliable && destination.reliable && AllStored(backup.objects, prefix, objects, t.prims) ==>
              r.Restored? && r.failedVerify == 0
    ensures r.Restored? && apply && r.failedVerify == 0 ==>
              AllStored(backup.objects, prefix, objects, t.prims) && AllRecovered(destination.objects, objects, t.prims)
    ensures Touched(old(destination.objects), destination.objects, set o | o in objects :: o.key)
    ensures OnlyVerified(old(destination.objects), destination.objects, prefix, objects, backup.objects,
                         destination.faithful, t.prims)
  {
    ghost var start := destination.objects;
    ghost var originals := set o | o in objects :: o.key;
    var restored, skippedIdentical, failedVerify := 0, 0, 0;
    for i := 0 to |objects|
      invariant restored + skippedIdentical + failedVerify == if apply then i else failedVerify
      invariant !apply ==> destination.objects == old(destination.objects)
      invariant !apply ==> restored == 0
      invariant failedVerify == 0 ==> |destination.trail| == |old(destination.trail)| + restored
      invariant Touched(old(destination.objects), destination.objects, originals)
      invariant OnlyVerified(start, destination.objects, prefix, objects, backup.objects, destination.faithful, t.prims)
      invariant backup.reliable && destination.reliable && AllStored(backup.objects, prefix, objects, t.prims) ==>
                  failedVerify == 0
      invariant apply && failedVerify == 0 ==>
                  && AllStored(backup.objects, prefix, objects[..i], t.prims)
                  && AllRecovered(destination.objects, objects[..i], t.prims)
    {
      assert objects[i] in objects && objects[i].key in originals;
      ghost var before := destination.objects;
      var one := RestoreOne(objects[i], prefix, backup, destination, apply, t);
      TouchedMore(old(destination.objects), before, destination.objects, originals, objects[i].key);
      OnlyVerifiedStep(start, before, destination.objects, prefix, objects, objects[i], backup.objects,
                       destination.faithful, t.prims);
      match one {
        case ObjectThrew =>
          return Failed;
        case ObjectFailed =>
          failedVerify := failedVerify + 1;
        case ObjectSkipped =>
          skippedIdentical := skippedIdentical + if apply then 1 else 0;
        case ObjectRestored =>
          restored := restored + 1;
      }
      if apply && failedVerify == 0 {
        RecoverStep(backup.objects, before, destination.objects, prefix, objects, i, t.prims);
      }
    }
    assert objects[..|objects|] == objects;
    return Restored(restored, skippedIdentical, failedVerify, apply);
  }

  /** Restore. Every object is counted once when applying; when none failed, every object is back at
      its original key; no other key of the destination changes. */
  method Restore(inv: Inventory, backup: Target, destination: Target, apply: bool, allowPrimary: bool, t: Tools)
    returns (r: RestoreResult)
    requires backup.store == destination.store ==> backup.identity == destination.identity
    modifies destination.store
    ensures r == Refused <==> t.fingerprint(backup.identity) == t.fingerprint(destination.identity)
                              || (t.fingerprint(destination.identity) == inv.body.sourceFingerprint && !allowPrimary)
    ensures r == Refused || !apply ==> destination.store.objects == old(destination.store.objects)
    ensures r.Restored? && apply ==> r.restored + r.skippedIdentical + r.failedVerify == |inv.body.objects|
    ensures r.Restored? && !apply ==> r.restored == r.skippedIdentical == 0
    ensures r != Refused && backup.store.reliable && destination.store.reliable
            && AllStored(backup.store.objects, inv.body.backupPrefix, inv.body.objects, t.prims) ==>
              r.Restored? && r.failedVerify == 0
    ensures r.Restored? && apply && r.failedVerify == 0 ==>
              && AllStored(backup.store.objects, inv.body.backupPrefix, inv.body.objects, t.prims)
              && AllRecovered(destination.store.objects, inv.body.objects, t.prims)
    ensures Touched(old(destination.store.objects), destination.store.objects, set o | o in inv.body.objects :: o.key)
    ensures OnlyVerified(old(destination.store.objects), destination.store.objects, inv.body.backupPrefix,
                         inv.body.objects, backup.store.objects, destination.store.faithful, t.prims)
  {
    if t.fingerprint(backup.identity) == t.fingerprint(destination.identity) {
      return Refused;
    }
    if t.fingerprint(destination.identity) == inv.body.sourceFingerprint && !allowPrimary {
      return Refused;
    }
    r := RestoreAll(inv.body.objects, inv.body.backupPrefix, backup.store, destination.store, apply, t);
  }

  /** Two entries of one key were both checked against one backup object, so they agree. */
  lemma {:induction false} RecoverStep(backup: Objects, before: Objects, after: Objects, prefix: string,
                                       objects: seq<Entry>, i: nat, prims: Primitives)
    requires i < |objects| && AllStored(backup, prefix, objects[..i], prims)
    requires Stored(backup, prefix + objects[i].key, objects[i], prims)
    requires AllRecovered(before, objects[..i], prims) && Touched(before, after, {objects[i].key})
    requires Recovered(after, objects[i], prims)
    ensures AllRecovered(after, objects[..i + 1], prims)
    ensures AllStored(backup, prefix, objects[..i + 1], prims)
  {
    assert objects[..i + 1] == objects[..i] + [objects[i]];
    forall o | o in objects[..i + 1]
      ensures Recovered(after, o, prims)
    {
      if o.key == objects[i].key {
        assert o in objects[..i] ==> Stored(backup, prefix + o.key, o, prims);
      } else {
        assert o in objects[..i];
      }
    }
  }

  /** MAIN: back up, then restore with nothing failed: every referenced key holds the source bytes. */
  lemma {:induction false} RestoreInvertsBackup(entries: seq<Entry>, keys: seq<string>, source: Objects,
                                                dest: Objects, t: Tools)
    requires t.prims.CollisionFreeOn(source.Values + dest.Values) && Records(entries, keys, source, t.prims)
    requires AllRecovered(dest, entries, t.prims)
    ensures forall k :: k in keys ==> k in dest && k in source && dest[k] == source[k]
  {
    forall k | k in keys
      ensures k in dest && k in source && dest[k] == source[k]
    {
      var i :| 0 <= i < |keys| && keys[i] == k;
      assert Recovered(dest, entries[i], t.prims);
      assert source[k] in source.Values && dest[k] in dest.Values;
    }
  }

  /** `readInventoryFromStore`: None where there is no inventory, or the read or the parse throws. */
  method ReadInventory(store: Store, stamp: string, t: Tools) returns (inv: Option<Inventory>)
    ensures inv.Some? ==>
              && InventoryKey(stamp) in store.objects
              && t.decode(store.objects[InventoryKey(stamp)]) == Document(inv.value)
    ensures store.reliable && InventoryKey(stamp) in store.objects
            && t.decode(store.objects[InventoryKey(stamp)]).Document? ==>
              inv.Some?
  {
    var raw := store.Get(InventoryKey(stamp));
    if !raw.Found? || !t.decode(raw.data).Document? {
      return None;
    }
    return Some(t.decode(raw.data).value);
  }

  /** Every referenced key holds at `dest` what it holds at the source, unless two of their objects share a digest. */
  ghost predicate RestoredFrom(rows: seq<Row>, source: Objects, dest: Objects, prims: Primitives) {
    prims.CollisionFreeOn(source.Values + dest.Values) ==>
      forall k :: Referenced(rows, k) ==> k in dest && k in source && dest[k] == source[k]
  }

  /** Back up, read the inventory back from the backup store, verify, restore; with every fault the stores
      allow. `written` says that the inventory in the store is the one that was written. */
  method BackupVerifyRestore(rows: seq<Row>, source: Target, backup: Target, destination: Target,
                             stamp: string, createdAt: string, key: Bytes, t: Tools)
    returns (verified: Option<bool>, r: RestoreResult, ghost written: bool)
    requires source.store == backup.store ==> source.identity == backup.identity
    requires backup.store == destination.store ==> backup.identity == destination.identity
    requires source.store == destination.store ==> source.identity == destination.identity
    requires t.Sound() && NoCollision(rows)
    modifies backup.store, destination.store
    ensures verified.Some? && backup.store.faithful ==> written
    ensures verified.Some? && written ==> verified.value
    ensures verified != Some(true) ==> r == Failed
    ensures written && r.Restored? && r.failedVerify == 0 ==>
              RestoredFrom(rows, source.store.objects, destination.store.objects, t.prims)
    ensures written ==> OthersKept(rows, old(destination.store.objects), destination.store.objects)
    ensures source.store.reliable && backup.store.reliable && destination.store.reliable
            && t.fingerprint(source.identity) != t.fingerprint(backup.identity)
            && t.fingerprint(backup.identity) != t.fingerprint(destination.identity)
            && t.fingerprint(destination.identity) != t.fingerprint(source.identity)
            && t.prims.CollisionFreeOn(old(backup.store.objects).Values + old(source.store.objects).Values)
            && (forall k :: Referenced(rows, k) ==> k in old(source.store.objects)) ==>
              written && verified == Some(true) && r.Restored? && r.failedVerify == 0
  {
    verified, r, written := None, Failed, false;
    var done;
    ghost var inv, entries, keys;
    done, inv, entries, keys, written := BackupCompletely(rows, source, backup, stamp, createdAt, key, t);
    if !done || backup.store == destination.store {
      written := false;
      return;
    }
    ghost var before, held := destination.store.objects, source.store.objects;
    verified, r := VerifyThenRestore(backup, destination, stamp, key, t, inv, written);
    if written {
      TouchedOnlyListed(inv, rows, held, stamp, createdAt, source.identity, key, entries, keys, before,
                        destination.store.objects, t);
      if r.Restored? && r.failedVerify == 0 {
        RestoredAll(inv, rows, held, stamp, createdAt, source.identity, key, entries, keys,
                    destination.store.objects, t);
      }
    }
  }

  /** A backup that completed, and whether its inventory is in the store as written. */
  method BackupCompletely(rows: seq<Row>, source: Target, backup: Target, stamp: string, createdAt: string, key: Bytes,
                          t: Tools)
    returns (done: bool, ghost inv: Inventory, ghost entries: seq<Entry>, ghost keys: seq<string>, ghost written: bool)
    requires source.store == backup.store ==> source.identity == backup.identity
    requires t.Sound() && NoCollision(rows)
    modifies backup.store
    ensures done ==>
              && t.fingerprint(source.identity) != t.fingerprint(backup.identity)
              && inv.body.sourceFingerprint == t.fingerprint(source.identity)
              && ListsReferenced(inv, rows, source.store.objects, stamp, createdAt, source.identity, key, entries,
                                 keys, t)
    ensures written ==> done && Written(backup.store.objects, stamp, inv, key, t)
    ensures done && backup.store.faithful ==> written
    ensures source.store.reliable && backup.store.reliable
            && t.fingerprint(source.identity) != t.fingerprint(backup.identity)
            && t.prims.CollisionFreeOn(old(backup.store.objects).Values + old(source.store.objects).Values)
            && (forall k :: Referenced(rows, k) ==> k in old(source.store.objects)) ==>
              written
  {
    done, inv, written := false, Inventory(Body(0, "", "", "", "", "", "", "", 0, 0, 0, "", [], []), ""), false;
    var b;
    ghost var inventory;
    b, inventory, entries, keys := Backup(rows, source, backup, stamp, createdAt, key, true, t);
    if b.Threw? || !b.complete {
      return;
    }
    done, inv := true, inventory.value;
    written := backup.store.objects[InventoryKey(stamp)] == t.encode(inv);
    WrittenVerifies(inv, rows, source.store.objects, backup.store.objects, stamp, createdAt, source.identity, key,
                    entries, keys, t);
  }

  /** The inventory is in the store as written, and vouches for what is there. */
  ghost predicate Written(objects: Objects, stamp: string, inv: Inventory, key: Bytes, t: Tools) {
    && InventoryKey(stamp) in objects && t.decode(objects[InventoryKey(stamp)]) == Document(inv)
    && BackupVerifies(inv, objects, key, t)
  }

  ghost predicate OthersKept(rows: seq<Row>, before: Objects, after: Objects) {
    forall k :: k in before && !Referenced(rows, k) ==> k in after && after[k] == before[k]
  }

  lemma {:induction false} WrittenVerifies(inv: Inventory, rows: seq<Row>, source: Objects, objects: Objects,
                                           stamp: string, createdAt: string, identity: string, key: Bytes,
                                           entries: seq<Entry>, keys: seq<string>, t: Tools)
    requires t.Sound() && ListsReferenced(inv, rows, source, stamp, createdAt, identity, key, entries, keys, t)
    requires AllStored(objects, Prefix(stamp), entries, t.prims)
    ensures t.decode(t.encode(inv)) == Document(inv) && BackupVerifies(inv, objects, key, t)
    ensures inv.body.sourceFingerprint == t.fingerprint(identity)
  {
    CompletedBackupVerifies(entries, keys, source, objects, stamp, createdAt, identity, key, t);
  }

  lemma {:induction false} TouchedOnlyListed(inv: Inventory, rows: seq<Row>, source: Objects, stamp: string,
                                             createdAt: string, identity: string, key: Bytes, entries: seq<Entry>,
                                             keys: seq<string>, before: Objects, after: Objects, t: Tools)
    requires ListsReferenced(inv, rows, source, stamp, createdAt, identity, key, entries, keys, t)
    requires Touched(before, after, set o | o in inv.body.objects :: o.key)
    ensures OthersKept(rows, before, after)
  {
    EntryKeys(entries, keys, source, t.prims);
  }

  lemma {:induction false} RestoredAll(inv: Inventory, rows: seq<Row>, source: Objects, stamp: string,
                                       createdAt: string, identity: string, key: Bytes, entries: seq<Entry>,
                                       keys: seq<string>, dest: Objects, t: Tools)
    requires ListsReferenced(inv, rows, source, stamp, createdAt, identity, key, entries, keys, t)
    requires AllRecovered(dest, inv.body.objects, t.prims)
    ensures RestoredFrom(rows, source, dest, t.prims)
  {
    if t.prims.CollisionFreeOn(source.Values + dest.Values) {
      RestoreInvertsBackup(entries, keys, source, dest, t);
    }
  }

  /** Only what verifies is restored. */
  method VerifyThenRestore(backup: Target, destination: Target, stamp: string, key: Bytes, t: Tools,
                           ghost inv: Inventory, ghost written: bool)
    returns (verified: Option<bool>, r: RestoreResult)
    requires backup.store != destination.store
    requires written ==> Written(backup.store.objects, stamp, inv, key, t)
    modifies destination.store
    ensures verified != Some(true) ==> r == Failed && destination.store.objects == old(destination.store.objects)
    ensures written && verified.Some? ==> verified.value
    ensures written ==>
              Touched(old(destination.store.objects), destination.store.objects, set o | o in inv.body.objects :: o.key)
    ensures written && r.Restored? && r.failedVerify == 0 ==>
              AllRecovered(destination.store.objects, inv.body.objects, t.prims)
    ensures written && t.fingerprint(destination.identity) == inv.body.sourceFingerprint ==> !r.Restored?
    ensures written && backup.store.reliable && destination.store.reliable
            && t.fingerprint(backup.identity) != t.fingerprint(destination.identity)
            && t.fingerprint(destination.identity) != inv.body.sourceFingerprint ==>
              verified == Some(true) && r.Restored? && r.failedVerify == 0
  {
    verified, r := None, Failed;
    var read := ReadInventory(backup.store, stamp, t);
    if read.None? {
      return;
    }
    var v := Verify(read.value, backup.store, key, t);
    if v.None? {
      return;
    }
    verified := Some(v.value.ok);
    if v.value.ok {
      r := Restore(read.value, backup, destination, true, false, t);
    }
  }
}
