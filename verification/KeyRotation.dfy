/** The secret box layout, keyring reads, and the operator command that re-encrypts every media blob
    from an old key to a new one in place. */
module KeyRotation {
  import opened Common
  import opened ObjectStores

  const VERSION: Byte := 1
  const IV_LEN := 12
  const TAG_LEN := 16
  const KEY_LEN := 32

  /** AES-256-GCM (NIST SP 800-38D): sealing yields a tag and data, opening fails or yields a plaintext. */
  datatype Cipher = Cipher(
    tag: (Bytes, Bytes, Bytes) -> Bytes,
    data: (Bytes, Bytes, Bytes) -> Bytes,
    open: (Bytes, Bytes, Bytes, Bytes) -> Option<Bytes>)
  {
    /** What was sealed under a key opens under that key. */
    ghost predicate Correct() {
      && (forall key, iv, plain :: |tag(key, iv, plain)| == TAG_LEN)
      && (forall key, iv, plain :: open(key, iv, tag(key, iv, plain), data(key, iv, plain)) == Some(plain))
    }
  }

  /** `[version][iv][tag][ciphertext]` */
  function EncryptBytes(key: Bytes, iv: Bytes, plain: Bytes, c: Cipher): Bytes {
    [VERSION] + iv + c.tag(key, iv, plain) + c.data(key, iv, plain)
  }

  /** None where the source throws: wrong key length, unknown layout, wrong key, or tampering. */
  function DecryptBytes(key: Bytes, box: Bytes, c: Cipher): Option<Bytes> {
    if |key| != KEY_LEN || |box| < 1 + IV_LEN + TAG_LEN || box[0] != VERSION then None
    else c.open(key, box[1..1 + IV_LEN], box[1 + IV_LEN..1 + IV_LEN + TAG_LEN], box[1 + IV_LEN + TAG_LEN..])
  }

  /** A box is its version byte, 12 bytes of nonce, 16 of tag, and the ciphertext, in that order. */
  lemma {:induction false} BoxLayout(key: Bytes, iv: Bytes, plain: Bytes, c: Cipher)
    requires c.Correct() && |iv| == 12
    ensures var box := EncryptBytes(key, iv, plain, c);
            && |box| == 29 + |c.data(key, iv, plain)|
            && box[0] == 1 && box[1..13] == iv && box[13..29] == c.tag(key, iv, plain)
            && box[29..] == c.data(key, iv, plain)
  {}

  /** Opening takes a box apart the same way, and refuses any other key length, version or shorter box. */
  lemma {:induction false} OpenMeans(key: Bytes, box: Bytes, c: Cipher)
    ensures |key| == 32 && |box| >= 29 && box[0] == 1 ==>
              DecryptBytes(key, box, c) == c.open(key, box[1..13], box[13..29], box[29..])
    ensures |key| != 32 || |box| < 29 || box[0] != 1 ==> DecryptBytes(key, box, c) == None
  {}

  /** The first key that opens the box. */
  function DecryptWithAny(keys: seq<Bytes>, box: Bytes, c: Cipher): Option<Bytes> {
    if keys == [] then None
    else
      var plain := DecryptBytes(keys[0], box, c);
      if plain.Some? then plain else DecryptWithAny(keys[1..], box, c)
  }

  /** The layout round trip: a box sealed under the current key opens under every keyring that starts
      with it. */
  lemma {:induction false} BoxRoundTrip(key: Bytes, previous: seq<Bytes>, iv: Bytes, plain: Bytes, c: Cipher)
    requires c.Correct() && |key| == KEY_LEN && |iv| == IV_LEN
    ensures DecryptBytes(key, EncryptBytes(key, iv, plain, c), c) == Some(plain)
    ensures DecryptWithAny([key] + previous, EncryptBytes(key, iv, plain, c), c) == Some(plain)
  {
    var box, tag, data := EncryptBytes(key, iv, plain, c), c.tag(key, iv, plain), c.data(key, iv, plain);
    assert box[1..1 + IV_LEN] == iv;
    assert box[1 + IV_LEN..1 + IV_LEN + TAG_LEN] == tag;
    assert box[1 + IV_LEN + TAG_LEN..] == data;
  }

  /** A keyring read succeeds exactly when some key opens the box, and then the earliest one decides. */
  lemma {:induction false} KeyringReadsFirst(keys: seq<Bytes>, box: Bytes, c: Cipher, i: nat)
    requires i < |keys| && DecryptBytes(keys[i], box, c).Some?
    requires forall j :: 0 <= j < i ==> DecryptBytes(keys[j], box, c).None?
    ensures DecryptWithAny(keys, box, c) == DecryptBytes(keys[i], box, c)
  {
    if i > 0 {
      KeyringReadsFirst(keys[1..], box, c, i - 1);
    }
  }

  // ---------------------------------------------------------------- rotation

  datatype Row = Row(storageKey: string, thumbKey: Option<string>)

  /** The keys of a row the script visits: an empty thumbnail key counts as none. */
  function KeysOf(r: Row): seq<string> {
    [r.storageKey] + if r.thumbKey.Some? && r.thumbKey.value != "" then [r.thumbKey.value] else []
  }

  function VisitedKeys(rows: seq<Row>): seq<string> {
    if rows == [] then [] else VisitedKeys(Init(rows)) + KeysOf(Last(rows))
  }

  /** The full images and the thumbnails that there are. */
  lemma {:induction false} VisitedMeans(rows: seq<Row>, key: string)
    ensures key in VisitedKeys(rows) <==>
            exists i :: 0 <= i < |rows| && (rows[i].storageKey == key || (rows[i].thumbKey == Some(key) && key != ""))
  {
    if rows != [] {
      VisitedMeans(Init(rows), key);
      assert rows == Init(rows) + [Last(rows)];
      if key in VisitedKeys(Init(rows)) {
        var i :| 0 <= i < |Init(rows)| && (Init(rows)[i].storageKey == key
                                           || (Init(rows)[i].thumbKey == Some(key) && key != ""));
        assert rows[i] == Init(rows)[i];
      } else if key in KeysOf(Last(rows)) {
        assert rows[|rows| - 1] == Last(rows);
      }
    }
  }

  datatype Counters = Counters(rotated: nat, alreadyRotated: nat, missing: nat, undecryptable: nat)
  {
    function Total(): nat {
      rotated + alreadyRotated + missing + undecryptable
    }
  }

  /** The keys and the cipher of a run. */
  datatype Rotation = Rotation(newKey: Bytes, oldKey: Bytes, cipher: Cipher)
  {
    ghost predicate Valid() {
      cipher.Correct() && |newKey| == KEY_LEN == |oldKey| && newKey != oldKey
    }

    /** What a reader with both keys sees. */
    function Plain(box: Bytes): Option<Bytes> {
      if DecryptBytes(newKey, box, cipher).Some? then DecryptBytes(newKey, box, cipher)
      else DecryptBytes(oldKey, box, cipher)
    }

    /** Nothing is left to rotate: the new key opens the box, or the old one does not. */
    predicate Settled(box: Bytes) {
      DecryptBytes(newKey, box, cipher).Some? || DecryptBytes(oldKey, box, cipher).None?
    }

    lemma {:induction false} KeyringOfTwo(box: Bytes)
      ensures Plain(box) == DecryptWithAny([newKey, oldKey], box, cipher)
    {
      assert [newKey, oldKey][1..] == [oldKey] && [oldKey][1..] == [];
      assert DecryptWithAny([oldKey], box, cipher) == DecryptBytes(oldKey, box, cipher);
    }
  }

  /** Every blob reads as it did, under the keyring of new and old key; none appeared or vanished. */
  ghost predicate SamePlaintexts(before: Objects, after: Objects, r: Rotation) {
    && after.Keys == before.Keys
    && forall k :: k in before ==> r.Plain(after[k]) == r.Plain(before[k])
  }

  /** So a reader whose keyring holds the new and the old key sees no difference, at any point of a run. */
  lemma {:induction false} KeyringReadsSurvive(before: Objects, after: Objects, r: Rotation)
    requires SamePlaintexts(before, after, r)
    ensures forall k :: k in before ==>
              DecryptWithAny([r.newKey, r.oldKey], after[k], r.cipher) ==
              DecryptWithAny([r.newKey, r.oldKey], before[k], r.cipher)
  {
    forall k | k in before
      ensures DecryptWithAny([r.newKey, r.oldKey], after[k], r.cipher) ==
              DecryptWithAny([r.newKey, r.oldKey], before[k], r.cipher)
    {
      r.KeyringOfTwo(before[k]);
      r.KeyringOfTwo(after[k]);
    }
  }

  ghost predicate AllSettled(objects: Objects, keys: seq<string>, r: Rotation) {
    forall k :: k in keys && k in objects ==> r.Settled(objects[k])
  }

  ghost predicate TrailKeeps(trail: seq<Objects>, from: nat, before: Objects, r: Rotation) {
    forall i :: from <= i < |trail| ==> SamePlaintexts(before, trail[i], r)
  }

  /** What visiting `keys` does to the store: plaintexts are kept, a settled blob is never rewritten,
      other keys and dry runs change nothing, and a finished applying run leaves the keys settled. */
  ghost predicate Effect(before: Objects, after: Objects, keys: seq<string>, apply: bool, finished: bool, r: Rotation) {
    && SamePlaintexts(before, after, r)
    && (forall k :: k in before && (k !in keys || r.Settled(before[k]) || !apply) ==> after[k] == before[k])
    && (finished && apply ==> AllSettled(after, keys, r))
  }

  ghost predicate AllOnNewKey(objects: Objects, keys: seq<string>, r: Rotation) {
    forall k :: k in keys && k in objects ==> DecryptBytes(r.newKey, objects[k], r.cipher).Some?
  }

  /** How many of the keys hold nothing, and how many a blob that neither key opens. */
  function Missing(objects: Objects, keys: seq<string>): nat {
    if keys == [] then 0 else Missing(objects, Init(keys)) + if Last(keys) in objects then 0 else 1
  }

  function Undecryptable(objects: Objects, keys: seq<string>, r: Rotation): nat {
    if keys == [] then 0
    else
      Undecryptable(objects, Init(keys), r)
      + if Last(keys) in objects && r.Plain(objects[Last(keys)]).None? then 1 else 0
  }

  /** Each visit that finds nothing counts as one, and each that finds what neither key opens. */
  lemma {:induction false} CountsMean(objects: Objects, keys: seq<string>, key: string, r: Rotation)
    ensures Missing(objects, []) == 0 && Undecryptable(objects, [], r) == 0
    ensures Missing(objects, keys + [key]) == Missing(objects, keys) + if key in objects then 0 else 1
    ensures Undecryptable(objects, keys + [key], r) ==
            Undecryptable(objects, keys, r) + if key in objects && BothFail(objects[key], r) then 1 else 0
  {
    assert Init(keys + [key]) == keys;
  }

  predicate BothFail(box: Bytes, r: Rotation) {
    DecryptBytes(r.newKey, box, r.cipher) == None && DecryptBytes(r.oldKey, box, r.cipher) == None
  }

  /** Rotation changes neither count. */
  lemma {:induction false} CountsStay(a: Objects, b: Objects, keys: seq<string>, r: Rotation)
    requires SamePlaintexts(a, b, r)
    ensures Missing(b, keys) == Missing(a, keys) && Undecryptable(b, keys, r) == Undecryptable(a, keys, r)
  {
    if keys != [] {
      CountsStay(a, b, Init(keys), r);
    }
  }

  /** With nothing left to rotate and nothing undecryptable, every blob is on the new key. */
  lemma {:induction false} NoneUndecryptable(objects: Objects, keys: seq<string>, r: Rotation)
    requires AllSettled(objects, keys, r) && Undecryptable(objects, keys, r) == 0
    ensures AllOnNewKey(objects, keys, r)
  {
    if keys != [] {
      NoneUndecryptable(objects, Init(keys), r);
      assert keys == Init(keys) + [Last(keys)];
      assert Last(keys) in objects ==> r.Settled(objects[Last(keys)]);
    }
  }

  lemma {:induction false} EffectsCompose(a: Objects, b: Objects, c: Objects, keys: seq<string>, more: seq<string>,
                                          apply: bool, finished: bool, r: Rotation)
    requires Effect(a, b, keys, apply, true, r) && Effect(b, c, more, apply, finished, r)
    ensures Effect(a, c, keys + more, apply, finished, r)
  {}

  lemma {:induction false} NothingToDo(a: Objects, b: Objects, keys: seq<string>, apply: bool, finished: bool,
                                       r: Rotation)
    requires Effect(a, b, keys, apply, finished, r) && (!apply || AllSettled(a, keys, r))
    ensures b == a
  {}

  method RandomIv() returns (iv: Bytes)
    ensures |iv| == IV_LEN
  {
    iv := *;
    if |iv| != IV_LEN {
      iv := seq(IV_LEN, _ => 0);
    }
  }

  /** What visiting one key makes of the counters. */
  function Visited(objects: Objects, key: string, c: Counters, r: Rotation): Counters {
    if key !in objects then c.(missing := c.missing + 1)
    else if DecryptBytes(r.newKey, objects[key], r.cipher).Some? then c.(alreadyRotated := c.alreadyRotated + 1)
    else if DecryptBytes(r.oldKey, objects[key], r.cipher).Some? then c.(rotated := c.rotated + 1)
    else c.(undecryptable := c.undecryptable + 1)
  }

  /** What a run that visited `keys` has counted: every key once, exactly the missing and the undecryptable
      ones as such, and nothing settled as rotated. */
  ghost predicate Tallied(a: Objects, keys: seq<string>, c: Counters, r: Rotation) {
    && c.Total() == |keys|
    && c.missing == Missing(a, keys)
    && c.undecryptable == Undecryptable(a, keys, r)
    && (AllSettled(a, keys, r) ==> c.rotated == 0)
  }

  lemma {:induction false} TallyOneMore(a: Objects, b: Objects, keys: seq<string>, key: string, apply: bool,
                                        c: Counters, r: Rotation)
    requires Effect(a, b, keys, apply, true, r) && Tallied(a, keys, c, r)
    ensures Tallied(a, keys + [key], Visited(b, key, c, r), r)
  {
    assert Init(keys + [key]) == keys;
    if AllSettled(a, keys + [key], r) {
      SettledSplit(a, keys, [key], r);
      NothingToDo(a, b, keys, apply, true, r);
      assert key in [key];
    }
  }

  lemma {:induction false} SettledSplit(objects: Objects, keys: seq<string>, more: seq<string>, r: Rotation)
    requires AllSettled(objects, keys + more, r)
    ensures AllSettled(objects, keys, r) && AllSettled(objects, more, r)
  {
    forall k | k in keys || k in more
      ensures k in keys + more
    {}
  }

  /** A visit cut short is one of the longer list too. */
  lemma {:induction false} EffectLess(a: Objects, b: Objects, keys: seq<string>, all: seq<string>, apply: bool,
                                      r: Rotation)
    requires Effect(a, b, keys, apply, false, r) && forall k :: k in keys ==> k in all
    ensures Effect(a, b, all, apply, false, r)
  {}

  /** How many writes a finished visit made: exactly the rotated blobs, and only when applying. */
  function Writes(apply: bool, c: Counters): nat {
    if apply then c.rotated else 0
  }

  /** One iteration: a key that opens under the old key only is re-encrypted in place. */
  method RotateOne(store: Store, key: string, apply: bool, r: Rotation, c: Counters) returns (ok: bool, c': Counters)
    requires r.Valid() && store.faithful
    modifies store
    ensures old(store.trail) <= store.trail && TrailKeeps(store.trail, |old(store.trail)|, old(store.objects), r)
    ensures ok ==> |store.trail| - Writes(apply, c') == |old(store.trail)| - Writes(apply, c)
    ensures Effect(old(store.objects), store.objects, [key], apply, ok, r)
    ensures ok ==> c' == Visited(old(store.objects), key, c, r)
    ensures store.reliable ==> ok
  {
    ok, c' := false, c;
    var blob := store.Get(key);
    if blob.Unreadable? {
      return;
    }
    if blob.Missing? {
      return true, c.(missing := c.missing + 1);
    }
    if DecryptBytes(r.newKey, blob.data, r.cipher).Some? {
      return true, c.(alreadyRotated := c.alreadyRotated + 1);
    }
    var plain := DecryptBytes(r.oldKey, blob.data, r.cipher);
    if plain.None? {
      return true, c.(undecryptable := c.undecryptable + 1);
    }
    if apply {
      var iv := RandomIv();
      var box := EncryptBytes(r.newKey, iv, plain.value, r.cipher);
      BoxRoundTrip(r.newKey, [r.oldKey], iv, plain.value, r.cipher);
      var put := store.Put(key, box);
      if !put {
        return;
      }
    }
    return true, c.(rotated := c.rotated + 1);
  }

  lemma {:induction false} TrailExtends(a: Objects, b: Objects, before: seq<Objects>, after: seq<Objects>,
                                        from: nat, r: Rotation)
    requires from <= |before| && before <= after && SamePlaintexts(a, b, r)
    requires TrailKeeps(before, from, a, r) && TrailKeeps(after, |before|, b, r)
    ensures TrailKeeps(after, from, a, r)
  {
    forall i | from <= i < |after|
      ensures SamePlaintexts(a, after[i], r)
    {
      if i < |before| {
        assert after[i] == before[i];
      } else {
        assert SamePlaintexts(b, after[i], r);
      }
    }
  }

  /** One more key of a run that began at `start` and has visited `done`. */
  method RotateNext(store: Store, key: string, apply: bool, r: Rotation, c: Counters,
                    ghost start: Objects, ghost from: nat, ghost done: seq<string>)
    returns (ok: bool, c': Counters)
    requires r.Valid() && store.faithful
    requires from <= |store.trail| && TrailKeeps(store.trail, from, start, r)
    requires Effect(start, store.objects, done, apply, true, r) && Tallied(start, done, c, r)
    modifies store
    ensures old(store.trail) <= store.trail && TrailKeeps(store.trail, from, start, r)
    ensures ok ==> |store.trail| - Writes(apply, c') == |old(store.trail)| - Writes(apply, c)
    ensures Effect(start, store.objects, done + [key], apply, ok, r)
    ensures ok ==> Tallied(start, done + [key], c', r)
    ensures store.reliable ==> ok
  {
    ghost var before, trail := store.objects, store.trail;
    ok, c' := RotateOne(store, key, apply, r, c);
    TrailExtends(start, before, trail, store.trail, from, r);
    EffectsCompose(start, before, store.objects, done, [key], apply, ok, r);
    if ok {
      TallyOneMore(start, before, done, key, apply, c, r);
    }
  }

  /** The inner loop, over the keys of one row. */
  method RotateKeys(store: Store, keys: seq<string>, apply: bool, r: Rotation, c: Counters,
                    ghost start: Objects, ghost from: nat, ghost done: seq<string>)
    returns (ok: bool, c': Counters)
    requires r.Valid() && store.faithful
    requires from <= |store.trail| && TrailKeeps(store.trail, from, start, r)
    requires Effect(start, store.objects, done, apply, true, r) && Tallied(start, done, c, r)
    modifies store
    ensures old(store.trail) <= store.trail && TrailKeeps(store.trail, from, start, r)
    ensures ok ==> |store.trail| - Writes(apply, c') == |old(store.trail)| - Writes(apply, c)
    ensures Effect(start, store.objects, done + keys, apply, ok, r)
    ensures ok ==> Tallied(start, done + keys, c', r)
    ensures store.reliable ==> ok
  {
    ok, c' := false, c;
    assert done + keys[..0] == done;
    for i := 0 to |keys|
      invariant old(store.trail) <= store.trail && TrailKeeps(store.trail, from, start, r)
      invariant |store.trail| - Writes(apply, c') == |old(store.trail)| - Writes(apply, c)
      invariant Effect(start, store.objects, done + keys[..i], apply, true, r)
      invariant Tallied(start, done + keys[..i], c', r)
    {
      assert done + keys[..i + 1] == done + keys[..i] + [keys[i]];
      ok, c' := RotateNext(store, keys[i], apply, r, c', start, from, done + keys[..i]);
      if !ok {
        EffectLess(start, store.objects, done + keys[..i + 1], done + keys, apply, r);
        return;
      }
    }
    assert done + keys[..|keys|] == done + keys;
    ok := true;
  }

  /** The script: every media row, full image then thumbnail. Wherever it stops, and whether a write
      that threw landed or not, every blob still reads as it did under both keys together. A
      completed run has counted every visited key once and written exactly the rotated ones; when
      applying, it left nothing to rotate, and if nothing was undecryptable every blob is on the new key. */
  method RotateMedia(rows: seq<Row>, store: Store, apply: bool, r: Rotation) returns (ok: bool, c: Counters)
    requires r.Valid() && store.faithful
    modifies store
    ensures old(store.trail) <= store.trail && TrailKeeps(store.trail, |old(store.trail)|, old(store.objects), r)
    ensures ok ==> |store.trail| == |old(store.trail)| + Writes(apply, c)
    ensures Effect(old(store.objects), store.objects, VisitedKeys(rows), apply, ok, r)
    ensures ok ==> Tallied(old(store.objects), VisitedKeys(rows), c, r)
    ensures store.reliable ==> ok
  {
    ok, c := false, Counters(0, 0, 0, 0);
    ghost var start, from := store.objects, |store.trail|;
    for i := 0 to |rows|
      invariant from == |old(store.trail)| && old(store.trail) <= store.trail
      invariant TrailKeeps(store.trail, from, start, r)
      invariant |store.trail| == from + Writes(apply, c)
      invariant Effect(start, store.objects, VisitedKeys(rows[..i]), apply, true, r)
      invariant Tallied(start, VisitedKeys(rows[..i]), c, r)
    {
      VisitedSoFar(rows, i);
      ok, c := RotateKeys(store, KeysOf(rows[i]), apply, r, c, start, from, VisitedKeys(rows[..i]));
      if !ok {
        VisitedPrefix(rows, i + 1);
        EffectLess(start, store.objects, VisitedKeys(rows[..i + 1]), VisitedKeys(rows), apply, r);
        return;
      }
    }
    assert rows[..|rows|] == rows;
    ok := true;
  }

  lemma {:induction false} VisitedSoFar(rows: seq<Row>, i: nat)
    requires i < |rows|
    ensures VisitedKeys(rows[..i + 1]) == VisitedKeys(rows[..i]) + KeysOf(rows[i])
  {
    assert Init(rows[..i + 1]) == rows[..i];
  }

  lemma {:induction false} VisitedPrefix(rows: seq<Row>, n: nat)
    requires n <= |rows|
    ensures forall k :: k in VisitedKeys(rows[..n]) ==> k in VisitedKeys(rows)
  {
    if n < |rows| {
      VisitedPrefix(Init(rows), n);
      assert Init(rows)[..n] == rows[..n];
    } else {
      assert rows[..n] == rows;
    }
  }

  /** Every blob that either key could read reads as the same plaintext under the new key alone. */
  ghost predicate NewKeyReads(before: Objects, after: Objects, keys: seq<string>, r: Rotation) {
    forall k :: k in keys && k in before && r.Plain(before[k]).Some? ==>
      k in after && DecryptBytes(r.newKey, after[k], r.cipher) == r.Plain(before[k])
  }

  lemma {:induction false} SettledReads(before: Objects, after: Objects, keys: seq<string>, r: Rotation)
    requires SamePlaintexts(before, after, r) && AllSettled(after, keys, r)
    ensures NewKeyReads(before, after, keys, r)
  {
    forall k | k in keys && k in before && r.Plain(before[k]).Some?
      ensures k in after && DecryptBytes(r.newKey, after[k], r.cipher) == r.Plain(before[k])
    {
      assert r.Settled(after[k]);
    }
  }

  /** MAIN: after a completed applying run the new key alone suffices for whatever either key could read,
      so the old key can be dropped; and it opens every blob if nothing was counted undecryptable. */
  lemma {:induction false} NewKeyAloneSuffices(before: Objects, after: Objects, keys: seq<string>, c: Counters,
                                               r: Rotation)
    requires SamePlaintexts(before, after, r) && AllSettled(after, keys, r)
    requires c.undecryptable == Undecryptable(before, keys, r)
    ensures NewKeyReads(before, after, keys, r)
    ensures c.undecryptable == 0 ==> AllOnNewKey(after, keys, r)
  {
    SettledReads(before, after, keys, r);
    CountsStay(before, after, keys, r);
    if c.undecryptable == 0 {
      NoneUndecryptable(after, keys, r);
    }
  }

  /** Rotating, then dropping the old key: no reader of the visited keys sees a difference. */
  method RotateAndDrop(rows: seq<Row>, store: Store, r: Rotation) returns (ok: bool, c: Counters)
    requires r.Valid() && store.faithful
    modifies store
    ensures ok ==> NewKeyReads(old(store.objects), store.objects, VisitedKeys(rows), r)
    ensures ok && c.undecryptable == 0 ==> AllOnNewKey(store.objects, VisitedKeys(rows), r)
    ensures store.reliable ==> ok
  {
    ok, c := RotateMedia(rows, store, true, r);
    if ok {
      NewKeyAloneSuffices(old(store.objects), store.objects, VisitedKeys(rows), c, r);
    }
  }

  /** A completed run, and another one after it: the second writes nothing and counts the same keys. */
  method RotateTwice(rows: seq<Row>, store: Store, r: Rotation)
    returns (first: Option<Counters>, second: Option<Counters>, ghost middle: Objects)
    requires r.Valid() && store.faithful
    modifies store
    ensures store.reliable ==> second.Some?
    ensures old(store.trail) <= store.trail
    ensures first.Some? ==>
              && Effect(old(store.objects), middle, VisitedKeys(rows), true, true, r)
              && Tallied(old(store.objects), VisitedKeys(rows), first.value, r)
              && store.objects == middle
    ensures second.Some? ==>
              && first.Some? && |store.trail| == |old(store.trail)| + first.value.rotated
              && second.value.rotated == 0 && second.value.Total() == first.value.Total()
              && second.value.missing == first.value.missing && second.value.undecryptable == first.value.undecryptable
  {
    first, second := None, None;
    var ok, c := RotateMedia(rows, store, true, r);
    middle := store.objects;
    if !ok {
      return;
    }
    first := Some(c);
    CountsStay(old(store.objects), middle, VisitedKeys(rows), r);
    second := RotateAgain(rows, store, r);
  }

  /** Over keys on which nothing is left to rotate a run writes nothing. */
  method RotateAgain(rows: seq<Row>, store: Store, r: Rotation) returns (second: Option<Counters>)
    requires r.Valid() && store.faithful && AllSettled(store.objects, VisitedKeys(rows), r)
    modifies store
    ensures store.objects == old(store.objects) && old(store.trail) <= store.trail
    ensures store.reliable ==> second.Some?
    ensures second.Some? ==>
              && store.trail == old(store.trail) && second.value.rotated == 0
              && Tallied(store.objects, VisitedKeys(rows), second.value, r)
  {
    var ok, c := RotateMedia(rows, store, true, r);
    NothingToDo(old(store.objects), store.objects, VisitedKeys(rows), true, ok, r);
    second := if ok then Some(c) else None;
  }
}
