/** The media service: redacted images go encrypted into the object store and get a row each, and are
    read back for their owner only. */
module MediaService {
  import opened Common
  import opened ObjectStores
  import opened PayloadTrees
  import KeyRotation

  datatype State =
    | NoImages | Applied | NotScanned | RedactionFailed | CoverageInsufficient
    | BlockedStrict | StorageDisabled | MediaUnavailable

  /** `isSafeMediaRedactionState` */
  predicate SafeState(s: State) {
    s == Applied || s == NoImages
  }

  datatype DataUrl = DataUrl(mime: string, data: Bytes)

  /** What decoding an image for its thumbnail comes to; nothing but absent parts where it throws. */
  datatype Picture = Picture(width: Option<nat>, height: Option<nat>, thumbnail: Option<Bytes>)

  /** `parseDataUrl` (None where it throws), the image codec, and the secret box. */
  datatype Codec = Codec(
    parse: string -> Option<DataUrl>,
    decode: Bytes -> Picture,
    cipher: KeyRotation.Cipher)

  datatype Row = Row(
    momentId: string, userId: string, screenshot: bool, storageKey: string, thumbKey: Option<string>,
    contentType: string, bytes: nat, thumbBytes: Option<nat>, width: Option<nat>, height: Option<nat>, state: State)

  // ---------------------------------------------------------------- keys

  predicate IsUuid(id: string) {
    |id| == 36 && forall i :: 0 <= i < |id| ==> IsHexDigit(id[i]) || id[i] == '-'
  }

  function StorageKey(userId: string, momentId: string, id: string): string {
    userId + "/" + momentId + "/" + id
  }

  function ThumbKey(userId: string, momentId: string, id: string): string {
    StorageKey(userId, momentId, id) + "-thumb"
  }

  function KeysFor(userId: string, momentId: string, id: string): set<string> {
    {StorageKey(userId, momentId, id), ThumbKey(userId, momentId, id)}
  }

  /** The id is the tail of the storage key, and no thumbnail key ends like one. */
  lemma {:induction false} KeyTails(u: string, m: string, id: string)
    requires IsUuid(id)
    ensures var a := StorageKey(u, m, id); |a| >= 36 && a[|a| - 36..] == id
    ensures var t := ThumbKey(u, m, id); |t| >= 42 && t[..|t| - 6] == StorageKey(u, m, id) && t[|t| - 5] == 't'
  {
    var prefix := u + "/" + m + "/";
    var a := StorageKey(u, m, id);
    assert a == prefix + id && |a| == |prefix| + 36;
    var t := a + "-thumb";
    assert t[|t| - 5] == "-thumb"[1];
  }

  /** Whoever owns them, two media never share a key. */
  lemma {:induction false} KeysAreSeparate(u: string, m: string, id: string, u': string, m': string, id': string)
    requires IsUuid(id) && IsUuid(id') && id != id'
    ensures KeysFor(u, m, id) !! KeysFor(u', m', id')
  {
    KeyTails(u, m, id);
    KeyTails(u', m', id');
    var a, b := StorageKey(u, m, id), StorageKey(u', m', id');
    assert a[|a| - 5] == a[|a| - 36..][31] && b[|b| - 5] == b[|b| - 36..][31];
  }

  // ---------------------------------------------------------------- reading

  datatype MediaRead = NotFound | Threw | Served(contentType: string, data: Bytes)

  /** What `getMedia` answers when the store can be read: only the owner's media, only in a safe state, and
      decrypted with whichever key of the keyring opens it. */
  function Read(rows: map<string, Row>, objects: Objects, keys: seq<Bytes>, cipher: KeyRotation.Cipher,
                userId: string, id: string, thumb: bool): MediaRead
  {
    if id !in rows || rows[id].userId != userId || !SafeState(rows[id].state) then NotFound
    else
      var r := rows[id];
      var useThumb := thumb && r.thumbKey.Some? && r.thumbKey.value != "";
      var key := if useThumb then r.thumbKey.value else r.storageKey;
      if key !in objects then NotFound
      else
        var plain := KeyRotation.DecryptWithAny(keys, objects[key], cipher);
        if plain.None? then Threw else Served(if useThumb then "image/jpeg" else r.contentType, plain.value)
  }

  /** Whether there is an image to serve, key and bytes apart: it is the caller's own, and certified or
      free of images when it was captured. */
  predicate MayServe(rows: map<string, Row>, userId: string, id: string) {
    id in rows && rows[id].userId == userId && (rows[id].state == Applied || rows[id].state == NoImages)
  }

  /** MAIN: only the caller's own safe media are served: the thumbnail as a JPEG where it is asked for and
      exists, otherwise the image with its type, as the first key of the keyring that opens it reads it. */
  lemma {:induction false} ReadMeans(rows: map<string, Row>, objects: Objects, keys: seq<Bytes>,
                                     cipher: KeyRotation.Cipher, userId: string, id: string, thumb: bool)
    ensures var answer := Read(rows, objects, keys, cipher, userId, id, thumb);
            && (!MayServe(rows, userId, id) ==> answer == NotFound)
            && (MayServe(rows, userId, id) ==>
                  var r := rows[id];
                  if thumb && r.thumbKey.Some? && r.thumbKey != Some("")
                  then IsAnswer(answer, objects, keys, cipher, r.thumbKey.value, "image/jpeg")
                  else IsAnswer(answer, objects, keys, cipher, r.storageKey, r.contentType))
  {
    if MayServe(rows, userId, id) {
      var r := rows[id];
      var key := if thumb && r.thumbKey.Some? && r.thumbKey.value != "" then r.thumbKey.value else r.storageKey;
      if key in objects {
        FirstThatOpens(keys, objects[key], cipher);
      }
    }
  }

  /** Not found without the blob, an error when no key opens it, and otherwise what the first that does reads. */
  ghost predicate IsAnswer(answer: MediaRead, objects: Objects, keys: seq<Bytes>, cipher: KeyRotation.Cipher,
                           key: string, contentType: string)
  {
    match answer
    case NotFound => key !in objects
    case Threw =>
      key in objects && forall i :: 0 <= i < |keys| ==> KeyRotation.DecryptBytes(keys[i], objects[key], cipher) == None
    case Served(ct, data) =>
      && ct == contentType && key in objects
      && exists i :: 0 <= i < |keys| && OpensFirst(keys, i, objects[key], cipher, data)
  }

  ghost predicate OpensFirst(keys: seq<Bytes>, i: nat, box: Bytes, cipher: KeyRotation.Cipher, data: Bytes)
    requires i < |keys|
  {
    && KeyRotation.DecryptBytes(keys[i], box, cipher) == Some(data)
    && forall j :: 0 <= j < i ==> KeyRotation.DecryptBytes(keys[j], box, cipher) == None
  }

  lemma {:induction false} FirstThatOpens(keys: seq<Bytes>, box: Bytes, cipher: KeyRotation.Cipher)
    ensures var plain := KeyRotation.DecryptWithAny(keys, box, cipher);
            && (plain == None ==>
                  forall i :: 0 <= i < |keys| ==> KeyRotation.DecryptBytes(keys[i], box, cipher) == None)
            && (plain.Some? ==> exists i :: 0 <= i < |keys| && OpensFirst(keys, i, box, cipher, plain.value))
  {
    if keys != [] {
      FirstThatOpens(keys[1..], box, cipher);
      var plain := KeyRotation.DecryptWithAny(keys, box, cipher);
      if KeyRotation.DecryptBytes(keys[0], box, cipher).Some? {
        assert OpensFirst(keys, 0, box, cipher, plain.value);
      } else if plain.Some? {
        var i :| 0 <= i < |keys[1..]| && OpensFirst(keys[1..], i, box, cipher, plain.value);
        assert forall j :: 0 < j < |keys| ==> keys[j] == keys[1..][j - 1];
        assert OpensFirst(keys, i + 1, box, cipher, plain.value);
      } else {
        assert forall j :: 0 < j < |keys| ==> keys[j] == keys[1..][j - 1];
      }
    }
  }

  // ---------------------------------------------------------------- storing

  /** The row of a stored image. */
  function RowFor(userId: string, momentId: string, id: string, image: Image, state: State, codec: Codec): Row
    requires codec.parse(image.dataUrl).Some?
  {
    var url := codec.parse(image.dataUrl).value;
    var picture := codec.decode(url.data);
    Row(momentId, userId, image.screenshot, StorageKey(userId, momentId, id),
        if picture.thumbnail.Some? then Some(ThumbKey(userId, momentId, id)) else None,
        url.mime, |url.data|, if picture.thumbnail.Some? then Some(|picture.thumbnail.value|) else None,
        picture.width, picture.height, state)
  }

  /** The row says whose image it is, where its blobs are, and what decoding told of it. */
  lemma {:induction false} RowMeans(u: string, m: string, id: string, image: Image, state: State, codec: Codec)
    requires codec.parse(image.dataUrl).Some?
    ensures var r, url := RowFor(u, m, id, image, state, codec), codec.parse(image.dataUrl).value;
            var picture := codec.decode(url.data);
            && r.momentId == m && r.userId == u && r.state == state && r.screenshot == image.screenshot
            && r.storageKey == u + "/" + m + "/" + id && r.contentType == url.mime && r.bytes == |url.data|
            && r.width == picture.width && r.height == picture.height
            && (picture.thumbnail == None ==> r.thumbKey == None && r.thumbBytes == None)
            && (picture.thumbnail.Some? ==>
                  && r.thumbKey == Some(u + "/" + m + "/" + id + "-thumb")
                  && r.thumbBytes == Some(|picture.thumbnail.value|))
  {}

  /** Sealed under the current key. */
  ghost predicate SealedAt(objects: Objects, key: string, data: Bytes, writeKey: Bytes, cipher: KeyRotation.Cipher) {
    && key in objects
    && exists iv ::
         |iv| == KeyRotation.IV_LEN && objects[key] == KeyRotation.EncryptBytes(writeKey, iv, data, cipher)
  }

  /** Its bytes and its thumbnail are in the store as ciphertext. */
  ghost predicate Sealed(objects: Objects, userId: string, momentId: string, id: string, url: DataUrl,
                         writeKey: Bytes, codec: Codec)
  {
    && SealedAt(objects, StorageKey(userId, momentId, id), url.data, writeKey, codec.cipher)
    && (codec.decode(url.data).thumbnail.Some? ==>
          SealedAt(objects, ThumbKey(userId, momentId, id), codec.decode(url.data).thumbnail.value, writeKey,
                   codec.cipher))
  }

  /** The image has its row, and its bytes and thumbnail are in the store. */
  ghost predicate Holds(rows: map<string, Row>, objects: Objects, userId: string, momentId: string, id: string,
                        image: Image, state: State, writeKey: Bytes, codec: Codec)
  {
    && codec.parse(image.dataUrl).Some? && id in rows
    && rows[id] == RowFor(userId, momentId, id, image, state, codec)
    && Sealed(objects, userId, momentId, id, codec.parse(image.dataUrl).value, writeKey, codec)
  }

  /** The first n images, under the first n ids. */
  ghost predicate HoldsAll(rows: map<string, Row>, objects: Objects, userId: string, momentId: string, ids: seq<string>,
                           images: seq<Image>, n: nat, state: State, writeKey: Bytes, codec: Codec)
    requires n <= |images| && n <= |ids|
  {
    forall i :: 0 <= i < n ==> Holds(rows, objects, userId, momentId, ids[i], images[i], state, writeKey, codec)
  }

  /** All keys of these ids. */
  ghost function KeysOfAll(userId: string, momentId: string, ids: seq<string>): set<string> {
    set id, k | id in ids && k in KeysFor(userId, momentId, id) :: k
  }

  /** The new rows are those of the first n ids, and no other row changed. */
  ghost predicate Added(before: map<string, Row>, after: map<string, Row>, ids: seq<string>, n: nat)
    requires n <= |ids|
  {
    && after.Keys == before.Keys + (set i | 0 <= i < n :: ids[i])
    && forall id :: id in before ==> after[id] == before[id]
  }

  /** Every row names its blobs by its own id. */
  ghost predicate WellNamed(rows: map<string, Row>) {
    forall id :: id in rows ==>
      && IsUuid(id) && rows[id].storageKey == StorageKey(rows[id].userId, rows[id].momentId, id)
      && (rows[id].thumbKey.Some? ==> rows[id].thumbKey.value == ThumbKey(rows[id].userId, rows[id].momentId, id))
  }

  /** Ids as `randomUUID` gives them: well-formed, all different, and not in the table. */
  ghost predicate FreshIds(ids: seq<string>, rows: map<string, Row>) {
    && (forall i :: 0 <= i < |ids| ==> IsUuid(ids[i]) && ids[i] !in rows)
    && (forall i, j :: 0 <= i < j < |ids| ==> ids[i] != ids[j])
  }

  /** Writing another medium's blobs leaves these where they were. */
  lemma {:induction false} HoldsStill(rows: map<string, Row>, objects: Objects, rows': map<string, Row>,
                                      objects': Objects,
                                      u: string, m: string, id: string, id': string,
                                      image: Image, state: State, writeKey: Bytes, codec: Codec)
    requires Holds(rows, objects, u, m, id, image, state, writeKey, codec)
    requires id in rows' && rows'[id] == rows[id] && IsUuid(id) && IsUuid(id') && id != id'
    requires Touched(objects, objects', KeysFor(u, m, id'))
    ensures Holds(rows', objects', u, m, id, image, state, writeKey, codec)
  {
    KeysAreSeparate(u, m, id, u, m, id');
    assert StorageKey(u, m, id) in KeysFor(u, m, id) && ThumbKey(u, m, id) in KeysFor(u, m, id);
  }

  /** The keys that the row refers to. */
  function RowKeys(r: Row): set<string> {
    {r.storageKey} + if r.thumbKey.Some? then {r.thumbKey.value} else {}
  }

  /** The keys under which the image's blobs go. */
  function BlobKeys(userId: string, momentId: string, id: string, url: DataUrl, codec: Codec): set<string> {
    {StorageKey(userId, momentId, id)}
    + if codec.decode(url.data).thumbnail.Some? then {ThumbKey(userId, momentId, id)} else {}
  }

  /** Every blob that was not there before belongs to one of the first n ids' rows; or, if the batch stopped
      there, it is one of the next id's. */
  ghost predicate NewOwned(before: Objects, after: Objects, rows: map<string, Row>, userId: string, momentId: string,
                           ids: seq<string>, n: nat, stopped: bool)
    requires n <= |ids|
  {
    forall k :: k in after && k !in before ==>
      || (exists i :: 0 <= i < n && ids[i] in rows && k in RowKeys(rows[ids[i]]))
      || (stopped && n < |ids| && k in KeysFor(userId, momentId, ids[n]))
  }

  lemma {:induction false} OwnedNext(objects0: Objects, rows: map<string, Row>, objects: Objects,
                                     rows': map<string, Row>, objects': Objects, u: string, m: string,
                                     ids: seq<string>, n: nat, landed: bool)
    requires n < |ids| && NewOwned(objects0, objects, rows, u, m, ids, n, false)
    requires Touched(objects, objects', KeysFor(u, m, ids[n]))
    requires if landed then Inserted(rows, rows', ids[n]) && Touched(objects, objects', RowKeys(rows'[ids[n]]))
             else rows' == rows
    ensures NewOwned(objects0, objects', rows', u, m, ids, if landed then n + 1 else n, !landed)
  {
    forall k | k in objects' && k !in objects0
      ensures || (exists i :: 0 <= i < (if landed then n + 1 else n) && ids[i] in rows' && k in RowKeys(rows'[ids[i]]))
              || (!landed && k in KeysFor(u, m, ids[n]))
    {
      if k in objects {
        var i :| 0 <= i < n && ids[i] in rows && k in RowKeys(rows[ids[i]]);
        assert rows'[ids[i]] == rows[ids[i]];
      }
    }
  }

  ghost predicate Inserted(before: map<string, Row>, after: map<string, Row>, id: string) {
    after.Keys == before.Keys + {id} && forall k :: k in before ==> after[k] == before[k]
  }

  lemma {:induction false} InsertedHolds(rows: map<string, Row>, objects: Objects, u: string, m: string, id: string,
                                         image: Image, state: State, writeKey: Bytes, codec: Codec)
    requires WellNamed(rows) && IsUuid(id) && id !in rows && codec.parse(image.dataUrl).Some?
    requires Sealed(objects, u, m, id, codec.parse(image.dataUrl).value, writeKey, codec)
    ensures var after := rows[id := RowFor(u, m, id, image, state, codec)];
            && WellNamed(after) && Inserted(rows, after, id)
            && Holds(after, objects, u, m, id, image, state, writeKey, codec)
  {}

  lemma {:induction false} NotYetStored(before: map<string, Row>, rows: map<string, Row>, ids: seq<string>, i: nat)
    requires i < |ids| && FreshIds(ids, before) && Added(before, rows, ids, i)
    ensures ids[i] !in rows
  {}

  lemma {:induction false} StoredNext(rows: map<string, Row>, objects: Objects, rows': map<string, Row>,
                                      objects': Objects,
                                      u: string, m: string, ids: seq<string>, images: seq<Image>, n: nat, landed: bool,
                                      state: State, writeKey: Bytes, codec: Codec)
    requires n < |images| && n < |ids| && HoldsAll(rows, objects, u, m, ids, images, n, state, writeKey, codec)
    requires forall i :: 0 <= i < |ids| ==> IsUuid(ids[i])
    requires forall i, j :: 0 <= i < j < |ids| ==> ids[i] != ids[j]
    requires Touched(objects, objects', KeysFor(u, m, ids[n]))
    requires if landed then Inserted(rows, rows', ids[n]) else rows' == rows
    requires landed ==> Holds(rows', objects', u, m, ids[n], images[n], state, writeKey, codec)
    ensures HoldsAll(rows', objects', u, m, ids, images, if landed then n + 1 else n, state, writeKey, codec)
  {
    forall i | 0 <= i < n
      ensures Holds(rows', objects', u, m, ids[i], images[i], state, writeKey, codec)
    {
      HoldsStill(rows, objects, rows', objects', u, m, ids[i], ids[n], images[i], state, writeKey, codec);
    }
  }

  lemma {:induction false} AddedNext(before: map<string, Row>, a: map<string, Row>, b: map<string, Row>,
                                     ids: seq<string>,
                                     n: nat, landed: bool)
    requires n < |ids| && Added(before, a, ids, n)
    requires if landed then Inserted(a, b, ids[n]) else b == a
    ensures Added(before, b, ids, if landed then n + 1 else n)
  {}

  lemma {:induction false} TouchedNext(before: Objects, a: Objects, b: Objects, u: string, m: string, ids: seq<string>,
                                       n: nat)
    requires n < |ids| && Touched(before, a, KeysOfAll(u, m, ids)) && Touched(a, b, KeysFor(u, m, ids[n]))
    ensures Touched(before, b, KeysOfAll(u, m, ids))
  {
    assert KeysFor(u, m, ids[n]) <= KeysOfAll(u, m, ids);
  }

  class MediaService {
    /** The `moment_media` table. */
    var rows: map<string, Row>
    const store: Store
    /** The current key, then previous ones that may still open old blobs. */
    const keys: seq<Bytes>
    const codec: Codec
    /** Whether every statement returns. */
    const dbReliable: bool

    constructor (rows: map<string, Row>, store: Store, keys: seq<Bytes>, codec: Codec, dbReliable: bool)
      requires keys != []
      ensures this.rows == rows && this.store == store && this.keys == keys && this.codec == codec
      ensures this.dbReliable == dbReliable
    {
      this.rows, this.store, this.keys, this.codec, this.dbReliable := rows, store, keys, codec, dbReliable;
    }

    ghost predicate Valid()
      reads this
    {
      && codec.cipher.Correct() && keys != [] && |keys[0]| == KeyRotation.KEY_LEN && store.faithful
      && WellNamed(rows)
    }

    /** Encrypt and put; a put that throws may have stored the ciphertext. */
    method PutSealed(key: string, data: Bytes) returns (ok: bool)
      requires Valid()
      modifies store
      ensures Touched(old(store.objects), store.objects, {key})
      ensures ok ==> SealedAt(store.objects, key, data, keys[0], codec.cipher)
      ensures store.reliable ==> ok
    {
      var iv := KeyRotation.RandomIv();
      ok := store.Put(key, KeyRotation.EncryptBytes(keys[0], iv, data, codec.cipher));
    }

    /** The image's ciphertext, then its thumbnail's. */
    method PutBlobs(userId: string, momentId: string, id: string, url: DataUrl) returns (ok: bool)
      requires Valid() && IsUuid(id)
      modifies store
      ensures Touched(old(store.objects), store.objects, BlobKeys(userId, momentId, id, url, codec))
      ensures ok ==> Sealed(store.objects, userId, momentId, id, url, keys[0], codec)
      ensures store.reliable ==> ok
    {
      var storageKey, thumbKey := StorageKey(userId, momentId, id), ThumbKey(userId, momentId, id);
      ok := PutSealed(storageKey, url.data);
      var thumb := codec.decode(url.data).thumbnail;
      if ok && thumb.Some? {
        assert storageKey != thumbKey;
        ok := PutSealed(thumbKey, thumb.value);
      }
    }

    /** One image: blobs first, then the row, whose statement may throw before or after it took effect. */
    method StoreOne(userId: string, momentId: string, id: string, image: Image, state: State)
      returns (ok: bool, ghost landed: bool)
      requires Valid() && IsUuid(id) && id !in rows
      modifies this, store
      ensures Valid() && Touched(old(store.objects), store.objects, KeysFor(userId, momentId, id))
      ensures landed ==> Holds(rows, store.objects, userId, momentId, id, image, state, keys[0], codec)
      ensures landed ==> Touched(old(store.objects), store.objects, RowKeys(rows[id]))
      ensures if landed then Inserted(old(rows), rows, id) else rows == old(rows)
      ensures ok ==> landed
      ensures store.reliable && dbReliable && codec.parse(image.dataUrl).Some? ==> ok
    {
      ok, landed := false, false;
      var url := codec.parse(image.dataUrl);
      if url.None? {
        return;
      }
      var put := PutBlobs(userId, momentId, id, url.value);
      if !put {
        return;
      }
      var inserted: bool := *;
      ok := *;
      ok := ok || dbReliable;
      if ok || inserted {
        InsertedHolds(rows, store.objects, userId, momentId, id, image, state, keys[0], codec);
        rows := rows[id := RowFor(userId, momentId, id, image, state, codec)];
        landed := true;
      }
    }

    /** `storeMomentImages`: nothing is stored in an unsafe state. Otherwise the images go in one by one,
        wherever it stops: each new row has its blobs in the store as ciphertext under the current key, and
        no other row and no other blob changed. */
    method StoreMomentImages(userId: string, momentId: string, images: seq<Image>, state: State, ids: seq<string>)
      returns (ok: bool, ghost stored: nat)
      requires Valid() && FreshIds(ids, rows) && (SafeState(state) ==> |ids| >= |images|)
      modifies this, store
      ensures Valid() && stored <= |images| && stored <= |ids|
      ensures HoldsAll(rows, store.objects, userId, momentId, ids, images, stored, state, keys[0], codec)
      ensures Added(old(rows), rows, ids, stored)
      ensures Touched(old(store.objects), store.objects, KeysOfAll(userId, momentId, ids))
      ensures NewOwned(old(store.objects), store.objects, rows, userId, momentId, ids, stored, !ok)
      ensures !SafeState(state) ==> ok && stored == 0 && store.objects == old(store.objects)
      ensures SafeState(state) && ok ==> stored == |images|
      ensures store.reliable && dbReliable
              && (forall i :: 0 <= i < |images| ==> codec.parse(images[i].dataUrl).Some?) ==>
                ok
    {
      ok, stored := true, 0;
      if !SafeState(state) {
        return;
      }
      ghost var rows0, objects0 := rows, store.objects;
      for i := 0 to |images|
        invariant stored == i && Valid()
        invariant HoldsAll(rows, store.objects, userId, momentId, ids, images, i, state, keys[0], codec)
        invariant Added(rows0, rows, ids, i)
        invariant Touched(objects0, store.objects, KeysOfAll(userId, momentId, ids))
        invariant NewOwned(objects0, store.objects, rows, userId, momentId, ids, i, false)
      {
        ok, stored := StoreNext(userId, momentId, images, state, ids, i, rows0, objects0);
        if !ok {
          return;
        }
      }
    }

    /** One iteration, of a call that began with `rows0` and `objects0`. */
    method StoreNext(userId: string, momentId: string, images: seq<Image>, state: State, ids: seq<string>, i: nat,
                     ghost rows0: map<string, Row>, ghost objects0: Objects)
      returns (ok: bool, ghost stored: nat)
      requires Valid() && FreshIds(ids, rows0) && i < |images| && i < |ids|
      requires HoldsAll(rows, store.objects, userId, momentId, ids, images, i, state, keys[0], codec)
      requires Added(rows0, rows, ids, i)
      requires Touched(objects0, store.objects, KeysOfAll(userId, momentId, ids))
      requires NewOwned(objects0, store.objects, rows, userId, momentId, ids, i, false)
      modifies this, store
      ensures Valid() && (stored == i || stored == i + 1) && (ok ==> stored == i + 1)
      ensures HoldsAll(rows, store.objects, userId, momentId, ids, images, stored, state, keys[0], codec)
      ensures Added(rows0, rows, ids, stored)
      ensures Touched(objects0, store.objects, KeysOfAll(userId, momentId, ids))
      ensures NewOwned(objects0, store.objects, rows, userId, momentId, ids, stored, !ok)
      ensures store.reliable && dbReliable && codec.parse(images[i].dataUrl).Some? ==> ok
    {
      NotYetStored(rows0, rows, ids, i);
      ghost var rows', objects', landed := rows, store.objects, false;
      ok, landed := StoreOne(userId, momentId, ids[i], images[i], state);
      stored := if landed then i + 1 else i;
      StoredNext(rows', objects', rows, store.objects, userId, momentId, ids, images, i, landed, state, keys[0], codec);
      OwnedNext(objects0, rows', objects', rows, store.objects, userId, momentId, ids, i, landed);
      AddedNext(rows0, rows', rows, ids, i, landed);
      TouchedNext(objects0, objects', store.objects, userId, momentId, ids, i);
    }

    /** `getMedia`; None for the full image, else its thumbnail. */
    method GetMedia(userId: string, id: string, thumb: bool) returns (r: MediaRead)
      ensures r == Read(rows, store.objects, keys, codec.cipher, userId, id, thumb) || (!store.reliable && r == Threw)
    {
      if id !in rows || rows[id].userId != userId {
        return NotFound;
      }
      var row := rows[id];
      if !SafeState(row.state) {
        return NotFound;
      }
      var useThumb := thumb && row.thumbKey.Some? && row.thumbKey.value != "";
      var blob := store.Get(if useThumb then row.thumbKey.value else row.storageKey);
      if blob.Unreadable? {
        return Threw;
      }
      if blob.Missing? {
        return NotFound;
      }
      var plain := KeyRotation.DecryptWithAny(keys, blob.data, codec.cipher);
      return if plain.None? then Threw else Served(if useThumb then "image/jpeg" else row.contentType, plain.value);
    }
  }

  // ---------------------------------------------------------------- laws

  /** MAIN: what has been stored is served back to its owner, the image byte for byte with its type and the
      thumbnail where there is one, and to nobody else. */
  lemma {:induction false} StoredIsServed(rows: map<string, Row>, objects: Objects, keys: seq<Bytes>, codec: Codec,
                                          u: string, m: string, id: string, image: Image, state: State)
    requires codec.cipher.Correct() && keys != [] && |keys[0]| == KeyRotation.KEY_LEN && SafeState(state)
    requires Holds(rows, objects, u, m, id, image, state, keys[0], codec)
    ensures var url := codec.parse(image.dataUrl).value;
            var thumbnail := codec.decode(url.data).thumbnail;
            && Read(rows, objects, keys, codec.cipher, u, id, false) == Served(url.mime, url.data)
            && Read(rows, objects, keys, codec.cipher, u, id, true) ==
               if thumbnail.Some? then Served("image/jpeg", thumbnail.value) else Served(url.mime, url.data)
    ensures forall u', thumb :: u' != u ==> Read(rows, objects, keys, codec.cipher, u', id, thumb) == NotFound
  {
    var url := codec.parse(image.dataUrl).value;
    SealedOpens(objects, StorageKey(u, m, id), url.data, keys, codec.cipher);
    var thumbnail := codec.decode(url.data).thumbnail;
    if thumbnail.Some? {
      SealedOpens(objects, ThumbKey(u, m, id), thumbnail.value, keys, codec.cipher);
      assert ThumbKey(u, m, id) != "";
    }
  }

  lemma {:induction false} SealedOpens(objects: Objects, key: string, data: Bytes, keys: seq<Bytes>,
                                       cipher: KeyRotation.Cipher)
    requires cipher.Correct() && keys != [] && |keys[0]| == KeyRotation.KEY_LEN
    requires SealedAt(objects, key, data, keys[0], cipher)
    ensures KeyRotation.DecryptWithAny(keys, objects[key], cipher) == Some(data)
  {
    var iv :| |iv| == KeyRotation.IV_LEN && objects[key] == KeyRotation.EncryptBytes(keys[0], iv, data, cipher);
    KeyRotation.BoxRoundTrip(keys[0], keys[1..], iv, data, cipher);
    assert [keys[0]] + keys[1..] == keys;
  }

  /** MAIN: storing images changes what nobody reads of the media that were there before. */
  lemma {:induction false} OthersReadTheSame(before: map<string, Row>, after: map<string, Row>, objects: Objects,
                                             objects': Objects,
                                             ids: seq<string>, n: nat, m: string, owner: string,
                                             keys: seq<Bytes>, cipher: KeyRotation.Cipher,
                                             u: string, id: string, thumb: bool)
    requires WellNamed(before) && FreshIds(ids, before) && n <= |ids| && Added(before, after, ids, n)
    requires Touched(objects, objects', KeysOfAll(owner, m, ids)) && id in before
    ensures Read(after, objects', keys, cipher, u, id, thumb) == Read(before, objects, keys, cipher, u, id, thumb)
  {
    var r := before[id];
    forall k | k in KeysFor(r.userId, r.momentId, id)
      ensures k !in KeysOfAll(owner, m, ids)
    {
      if k in KeysOfAll(owner, m, ids) {
        var other :| other in ids && k in KeysFor(owner, m, other);
        var j :| 0 <= j < |ids| && ids[j] == other;
        assert IsUuid(ids[j]) && ids[j] !in before;
        KeysAreSeparate(r.userId, r.momentId, id, owner, m, other);
        assert false;
      }
    }
    assert r.storageKey in KeysFor(r.userId, r.momentId, id);
    assert r.thumbKey.Some? ==> r.thumbKey.value in KeysFor(r.userId, r.momentId, id);
  }

  /** Re-encrypting the blobs under a new key, wherever it stops, changes no read of a service that holds the
      new and the old key. */
  lemma {:induction false} RotationIsInvisible(rows: map<string, Row>, before: Objects, after: Objects,
                                               r: KeyRotation.Rotation, u: string, id: string, thumb: bool)
    requires KeyRotation.SamePlaintexts(before, after, r)
    ensures Read(rows, after, [r.newKey, r.oldKey], r.cipher, u, id, thumb) ==
            Read(rows, before, [r.newKey, r.oldKey], r.cipher, u, id, thumb)
  {
    KeyRotation.KeyringReadsSurvive(before, after, r);
  }

  /** Storing, then reading back through the service. */
  method StoreThenGet(media: MediaService, userId: string, momentId: string, images: seq<Image>, ids: seq<string>,
                      k: nat,
                      thumb: bool)
    returns (ok: bool, r: MediaRead)
    requires media.Valid() && media.store.reliable && FreshIds(ids, media.rows) && |ids| >= |images| && k < |images|
    modifies media, media.store
    ensures ok && !thumb ==>
              && media.codec.parse(images[k].dataUrl).Some?
              && var url := media.codec.parse(images[k].dataUrl).value;
                 r == Served(url.mime, url.data)
    ensures ok && thumb ==>
              && media.codec.parse(images[k].dataUrl).Some?
              && var url := media.codec.parse(images[k].dataUrl).value;
                 var thumbnail := media.codec.decode(url.data).thumbnail;
                 r == if thumbnail.Some? then Served("image/jpeg", thumbnail.value) else Served(url.mime, url.data)
  {
    ghost var stored;
    r := NotFound;
    ok, stored := media.StoreMomentImages(userId, momentId, images, Applied, ids);
    if ok {
      assert Holds(media.rows, media.store.objects, userId, momentId, ids[k], images[k], Applied, media.keys[0],
                   media.codec);
      StoredIsServed(media.rows, media.store.objects, media.keys, media.codec, userId, momentId, ids[k], images[k],
                     Applied);
      r := media.GetMedia(userId, ids[k], thumb);
    }
  }
}
