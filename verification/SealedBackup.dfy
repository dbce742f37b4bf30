/** Publishing a sealed backup directory to an object store under an authenticated marker that is
    written last, verifying it there, and fetching it back. */
module SealedBackup {
  import opened Common
  import opened ObjectStores
  import Manifest

  const REMOTE_MARKER_NAME := "remote-marker.json"

  datatype Entry = Entry(name: string, role: string, sha256: string, bytes: int)

  datatype Body = Body(
    formatVersion: int, kind: string, stamp: string, createdAt: string, artifacts: seq<Entry>,
    sealedManifestSha256: string, mediaInventorySha256: Option<string>, expectedArtifactCount: int,
    completeness: string, sourceRole: string, destinationRole: string)

  datatype Marker = Marker(body: Body, mac: string)

  /** JSON text of markers, and the canonical serialization the MAC covers. */
  datatype Codec = Codec(encode: Marker -> Bytes, decode: Bytes -> Parsed<Marker>, canonical: Body -> string)
  {
    ghost predicate RoundTrips() {
      forall m :: decode(encode(m)) == Document(m)
    }
  }

  /** The fixed surroundings of a backup: digests and the two document formats. */
  datatype Tools = Tools(prims: Primitives, manifests: Manifest.Codec, markers: Codec)
  {
    ghost predicate Sound() {
      prims.WellFormed() && markers.RoundTrips()
    }
  }

  // ---------------------------------------------------------------- key space

  predicate SafeChar(c: char) {
    '0' <= c <= '9' || 'A' <= c <= 'Z' || 'a' <= c <= 'z' || c in "._-"
  }

  predicate SafeStamp(stamp: string) {
    stamp != "" && stamp != "." && stamp != ".." && forall c :: c in stamp ==> SafeChar(c)
  }

  function Prefix(stamp: string): string {
    "sealed-backups/" + stamp + "/"
  }

  function KeyOf(stamp: string, name: string): string {
    Prefix(stamp) + name
  }

  function MarkerKey(stamp: string): string {
    KeyOf(stamp, REMOTE_MARKER_NAME)
  }

  /** The position of the first slash, or the length. */
  function FirstSlash(s: string): nat {
    if s == "" || s[0] == '/' then 0 else 1 + FirstSlash(s[1..])
  }

  lemma {:induction false} FirstSlashAfter(s: string, n: string)
    requires '/' !in s
    ensures FirstSlash(s + "/" + n) == |s|
  {
    if s == "" {
      assert s + "/" + n == "/" + n;
    } else {
      assert (s + "/" + n)[1..] == s[1..] + "/" + n;
      FirstSlashAfter(s[1..], n);
    }
  }

  /** A safe stamp cannot reach into another stamp's part of the store. */
  lemma {:induction false} StampsAreSeparate(stamp: string, name: string, stamp': string, name': string)
    requires SafeStamp(stamp) && SafeStamp(stamp')
    requires KeyOf(stamp, name) == KeyOf(stamp', name')
    ensures stamp == stamp' && name == name'
  {
    AfterBase(stamp, name);
    AfterBase(stamp', name');
    FirstSlashAfter(stamp, name);
    FirstSlashAfter(stamp', name');
    var whole := stamp + "/" + name;
    assert whole[..|stamp|] == stamp && whole[..|stamp'|] == stamp';
    assert whole[|stamp| + 1..] == name && whole[|stamp'| + 1..] == name';
  }

  lemma {:induction false} AfterBase(stamp: string, name: string)
    ensures KeyOf(stamp, name)[|"sealed-backups/"|..] == stamp + "/" + name
  {
    assert KeyOf(stamp, name) == "sealed-backups/" + (stamp + "/" + name);
  }

  lemma {:induction false} KeysDiffer(stamp: string, a: string, b: string)
    requires a != b
    ensures KeyOf(stamp, a) != KeyOf(stamp, b)
  {
    assert KeyOf(stamp, a)[|Prefix(stamp)|..] == a && KeyOf(stamp, b)[|Prefix(stamp)|..] == b;
  }

  // ---------------------------------------------------------------- the local set and its marker

  function InventoryName(stamp: string): string {
    "media-inventory-" + stamp + ".json"
  }

  function EntryFor(files: Objects, name: string, role: string, prims: Primitives): Entry
    requires name in files
  {
    Entry(name, role, prims.sha256(files[name]), |files[name]|)
  }

  /** Every sealed artifact of the manifest, the manifest itself, and the media inventory if there is one. */
  ghost predicate IsLocalSet(entries: seq<Entry>, files: Objects, stamp: string, t: Tools)
    requires Manifest.HasManifest(files, stamp, t.manifests)
  {
    var arts := Manifest.Read(files, stamp, t.manifests).body.artifacts;
    var inventory := InventoryName(stamp) in files;
    && |entries| == |arts| + 1 + (if inventory then 1 else 0)
    && (forall i :: 0 <= i < |arts| ==>
          arts[i].name in files && entries[i] == EntryFor(files, arts[i].name, arts[i].role, t.prims))
    && entries[|arts|] == EntryFor(files, Manifest.FileName(stamp), "manifest", t.prims)
    && (inventory ==> entries[|arts| + 1] == EntryFor(files, InventoryName(stamp), "media-inventory", t.prims))
  }

  method LocalArtifacts(files: Objects, stamp: string, t: Tools) returns (entries: seq<Entry>)
    requires Manifest.BackupOk(files, stamp, None, t.manifests, t.prims)
    ensures IsLocalSet(entries, files, stamp, t)
  {
    var arts := Manifest.Read(files, stamp, t.manifests).body.artifacts;
    entries := [];
    for i := 0 to |arts|
      invariant |entries| == i
      invariant forall j :: 0 <= j < i ==>
                  arts[j].name in files && entries[j] == EntryFor(files, arts[j].name, arts[j].role, t.prims)
    {
      assert Manifest.ArtifactOk(arts[i], files, None, t.prims);
      entries := entries + [EntryFor(files, arts[i].name, arts[i].role, t.prims)];
    }
    entries := entries + [EntryFor(files, Manifest.FileName(stamp), "manifest", t.prims)];
    if InventoryName(stamp) in files {
      entries := entries + [EntryFor(files, InventoryName(stamp), "media-inventory", t.prims)];
    }
  }

  /** `find`: the first entry of the role. */
  function FirstOfRole(entries: seq<Entry>, role: string): (e: Option<Entry>)
    ensures e.None? <==> forall x :: x in entries ==> x.role != role
    ensures e.Some? ==>
              exists i :: 0 <= i < |entries| && entries[i] == e.value && e.value.role == role
                          && forall j :: 0 <= j < i ==> entries[j].role != role
  {
    if entries == [] then None
    else if entries[0].role == role then Some(entries[0])
    else FirstOfRole(entries[1..], role)
  }

  function Mac(body: Body, key: Bytes, t: Tools): string {
    t.prims.hmac(key, t.markers.canonical(body))
  }

  function BuildMarker(entries: seq<Entry>, stamp: string, createdAt: string, key: Bytes, t: Tools): Marker
    requires FirstOfRole(entries, "manifest").Some?
  {
    var inventory := FirstOfRole(entries, "media-inventory");
    var body := Body(1, "sealed-backup-remote-marker", stamp, createdAt, entries,
                     FirstOfRole(entries, "manifest").value.sha256,
                     if inventory.Some? then Some(inventory.value.sha256) else None,
                     |entries|, "complete", "local-sealed-backup-dir", "remote-sealed-backup-store");
    Marker(body, Mac(body, key, t))
  }

  // ---------------------------------------------------------------- what a remote set must be

  predicate ValidEntry(e: Entry) {
    e.role in {"postgres", "media", "manifest", "media-inventory"} && e.bytes >= 0 && IsHex64(e.sha256)
  }

  predicate MarkerShapeOk(m: Marker) {
    && m.body.formatVersion == 1 && m.body.kind == "sealed-backup-remote-marker"
    && m.body.completeness == "complete"
    && IsHex64(m.mac)
    && m.body.artifacts != []
    && m.body.expectedArtifactCount == |m.body.artifacts|
    && (forall e :: e in m.body.artifacts ==> ValidEntry(e))
    && (exists e :: e in m.body.artifacts && e.role == "postgres")
    && FirstOfRole(m.body.artifacts, "manifest").Some?
    && FirstOfRole(m.body.artifacts, "manifest").value.sha256 == m.body.sealedManifestSha256
  }

  /** Every listed artifact is stored with the listed size and digest. */
  predicate Intact(objects: Objects, stamp: string, entries: seq<Entry>, prims: Primitives) {
    forall e :: e in entries ==> Matches(objects, KeyOf(stamp, e.name), e.bytes, e.sha256, prims)
  }

  predicate HasMarker(objects: Objects, stamp: string, t: Tools) {
    MarkerKey(stamp) in objects && t.markers.decode(objects[MarkerKey(stamp)]).Document?
  }

  function ReadMarker(objects: Objects, stamp: string, t: Tools): Marker
    requires HasMarker(objects, stamp, t)
  {
    t.markers.decode(objects[MarkerKey(stamp)]).value
  }

  /** A committed, authenticated, intact remote set. */
  predicate RemoteOk(objects: Objects, stamp: string, key: Option<Bytes>, t: Tools) {
    && HasMarker(objects, stamp, t)
    && var m := ReadMarker(objects, stamp, t);
    && MarkerShapeOk(m)
    && key.Some? && SameDigest(Mac(m.body, key.value, t), m.mac)
    && Intact(objects, stamp, m.body.artifacts, t.prims)
  }

  lemma {:induction false} SafeStampMeans(stamp: string)
    ensures SafeStamp(stamp) <==>
            && stamp != "" && stamp != "." && stamp != ".."
            && forall i :: 0 <= i < |stamp| ==>
                 || '0' <= stamp[i] <= '9' || 'A' <= stamp[i] <= 'Z' || 'a' <= stamp[i] <= 'z'
                 || stamp[i] == '.' || stamp[i] == '_' || stamp[i] == '-'
  {
    assert forall i :: 0 <= i < |stamp| ==> stamp[i] in stamp;
  }

  /** MAIN: what verification of a remote set vouches for, spelled out: the stored marker's mac is the HMAC of the
      canonical text of the stored body, its fields are the expected ones, and every listed artifact is stored with
      the recorded size and digest, a database dump and the sealed manifest among them. */
  lemma {:induction false} RemoteOkMeans(objects: Objects, stamp: string, key: Option<Bytes>, t: Tools)
    requires t.prims.WellFormed()
    ensures RemoteOk(objects, stamp, key, t) <==>
            && key.Some?
            && var k := "sealed-backups/" + stamp + "/" + "remote-marker.json";
               && k in objects && t.markers.decode(objects[k]).Document?
               && var m := t.markers.decode(objects[k]).value;
                  && m.mac == t.prims.hmac(key.value, t.markers.canonical(m.body))
                  && m.body.formatVersion == 1 && m.body.kind == "sealed-backup-remote-marker"
                  && m.body.completeness == "complete" && m.body.expectedArtifactCount == |m.body.artifacts|
                  && (exists e :: e in m.body.artifacts && e.role == "postgres")
                  && (exists i :: 0 <= i < |m.body.artifacts| && IsManifestEntry(m.body, i))
                  && (forall e :: e in m.body.artifacts ==> IsStored(objects, stamp, e, t.prims))
  {
    if HasMarker(objects, stamp, t) && key.Some? {
      var m := ReadMarker(objects, stamp, t);
      MarkerMacMeans(m, key.value, t);
      ManifestEntryMeans(m.body);
      ListedMeans(objects, stamp, m.body.artifacts, t.prims);
    }
  }

  lemma {:induction false} ListedMeans(objects: Objects, stamp: string, entries: seq<Entry>, prims: Primitives)
    requires prims.WellFormed()
    ensures (forall e :: e in entries ==> ValidEntry(e)) && Intact(objects, stamp, entries, prims) <==>
            forall e :: e in entries ==> IsStored(objects, stamp, e, prims)
  {
    forall e | e in entries
      ensures ValidEntry(e) && Matches(objects, KeyOf(stamp, e.name), e.bytes, e.sha256, prims) <==>
              IsStored(objects, stamp, e, prims)
    {
      IsStoredMeans(objects, stamp, e, prims);
    }
  }

  /** Entry i is the first one of the sealed manifest, and has the recorded digest. */
  ghost predicate IsManifestEntry(body: Body, i: nat)
    requires i < |body.artifacts|
  {
    && body.artifacts[i].role == "manifest" && body.artifacts[i].sha256 == body.sealedManifestSha256
    && forall j :: 0 <= j < i ==> body.artifacts[j].role != "manifest"
  }

  ghost predicate IsStored(objects: Objects, stamp: string, e: Entry, prims: Primitives) {
    && (e.role == "postgres" || e.role == "media" || e.role == "manifest" || e.role == "media-inventory")
    && var k := "sealed-backups/" + stamp + "/" + e.name;
       k in objects && |objects[k]| == e.bytes && prims.sha256(objects[k]) == e.sha256
  }

  lemma {:induction false} IsStoredMeans(objects: Objects, stamp: string, e: Entry, prims: Primitives)
    requires prims.WellFormed()
    ensures ValidEntry(e) && Matches(objects, KeyOf(stamp, e.name), e.bytes, e.sha256, prims) <==>
            IsStored(objects, stamp, e, prims)
  {
    if KeyOf(stamp, e.name) in objects && IsHex64(e.sha256) {
      SameDigestIsEquality(prims.sha256(objects[KeyOf(stamp, e.name)]), e.sha256);
    }
  }

  lemma {:induction false} ManifestEntryMeans(body: Body)
    ensures FirstOfRole(body.artifacts, "manifest").Some?
            && FirstOfRole(body.artifacts, "manifest").value.sha256 == body.sealedManifestSha256 <==>
            exists i :: 0 <= i < |body.artifacts| && IsManifestEntry(body, i)
  {
    var first := FirstOfRole(body.artifacts, "manifest");
    if first.Some? {
      var i :| 0 <= i < |body.artifacts| && body.artifacts[i] == first.value && first.value.role == "manifest"
               && forall j :: 0 <= j < i ==> body.artifacts[j].role != "manifest";
      assert first.value.sha256 == body.sealedManifestSha256 ==> IsManifestEntry(body, i);
    }
  }

  lemma {:induction false} MarkerMacMeans(m: Marker, key: Bytes, t: Tools)
    requires t.prims.WellFormed()
    ensures IsHex64(m.mac) && SameDigest(Mac(m.body, key, t), m.mac) <==>
            m.mac == t.prims.hmac(key, t.markers.canonical(m.body))
  {
    if IsHex64(m.mac) {
      SameDigestIsEquality(t.prims.hmac(key, t.markers.canonical(m.body)), m.mac);
    }
  }

  /** A marker that keeps its mac under another body, well-shaped and listing what is stored, is accepted exactly if
      HMAC does not tell the canonical texts of the two bodies apart. */
  lemma {:induction false} AlteredMarkerIff(objects: Objects, stamp: string, key: Bytes, body: Body, data: Bytes,
                                            t: Tools)
    requires t.prims.WellFormed() && RemoteOk(objects, stamp, Some(key), t) && NoCollision(body.artifacts)
    requires t.markers.decode(data) == Document(Marker(body, ReadMarker(objects, stamp, t).mac))
    requires MarkerShapeOk(Marker(body, ReadMarker(objects, stamp, t).mac))
    requires Intact(objects, stamp, body.artifacts, t.prims)
    ensures RemoteOk(objects[MarkerKey(stamp) := data], stamp, Some(key), t) <==>
            t.prims.hmac(key, t.markers.canonical(body)) ==
            t.prims.hmac(key, t.markers.canonical(ReadMarker(objects, stamp, t).body))
  {
    var m, altered := ReadMarker(objects, stamp, t), objects[MarkerKey(stamp) := data];
    MarkerMacMeans(m, key, t);
    MarkerMacMeans(Marker(body, m.mac), key, t);
    IntactBesideMarker(objects, stamp, body.artifacts, data, t.prims);
    assert ReadMarker(altered, stamp, t) == Marker(body, m.mac);
    OkByItsParts(altered, stamp, key, Marker(body, m.mac), t);
  }

  lemma {:induction false} IntactBesideMarker(objects: Objects, stamp: string, entries: seq<Entry>, data: Bytes,
                                              prims: Primitives)
    requires Intact(objects, stamp, entries, prims) && NoCollision(entries)
    ensures Intact(objects[MarkerKey(stamp) := data], stamp, entries, prims)
  {
    forall e | e in entries
      ensures Matches(objects[MarkerKey(stamp) := data], KeyOf(stamp, e.name), e.bytes, e.sha256, prims)
    {
      KeysDiffer(stamp, e.name, REMOTE_MARKER_NAME);
    }
  }

  lemma {:induction false} OkByItsParts(objects: Objects, stamp: string, key: Bytes, m: Marker, t: Tools)
    requires HasMarker(objects, stamp, t) && ReadMarker(objects, stamp, t) == m
    requires MarkerShapeOk(m) && Intact(objects, stamp, m.body.artifacts, t.prims)
    ensures RemoteOk(objects, stamp, Some(key), t) <==> SameDigest(Mac(m.body, key, t), m.mac)
  {}

  datatype RemoteResult = RemoteResult(
    ok: bool, expected: nat, verified: nat, missing: seq<string>, altered: seq<string>)

  /** What is reported missing is not there, and what is reported altered is. */
  predicate OnlyIf(r: RemoteResult, objects: Objects, stamp: string) {
    && (forall n :: n in r.missing ==> KeyOf(stamp, n) !in objects)
    && (forall n :: n in r.altered ==> KeyOf(stamp, n) in objects)
  }

  /** None when a read threw; otherwise `ok` says exactly whether the remote set is a committed,
      authenticated, intact one, and every listed artifact is counted once. */
  method VerifyRemote(store: Store, stamp: string, key: Option<Bytes>, t: Tools) returns (r: Option<RemoteResult>)
    requires SafeStamp(stamp)
    ensures store.reliable ==> r.Some?
    ensures r.Some? ==> (r.value.ok <==> RemoteOk(store.objects, stamp, key, t))
    ensures r.Some? && r.value.ok && t.prims.WellFormed() ==>
              && key.Some? && HasMarker(store.objects, stamp, t)
              && var m := ReadMarker(store.objects, stamp, t);
                 m.mac == t.prims.hmac(key.value, t.markers.canonical(m.body))
    ensures r.Some? && r.value.ok ==>
              && r.value.expected == r.value.verified == |ReadMarker(store.objects, stamp, t).body.artifacts|
              && r.value.missing == [] && r.value.altered == []
    ensures r.Some? ==> OnlyIf(r.value, store.objects, stamp)
  {
    var raw := store.Get(MarkerKey(stamp));
    if raw.Unreadable? {
      return None;
    }
    if raw.Missing? {
      return Some(RemoteResult(false, 0, 0, [REMOTE_MARKER_NAME], []));
    }
    var parsed := t.markers.decode(raw.data);
    if !parsed.Document? {
      return Some(RemoteResult(false, 0, 0, [], if parsed.NotJson? then [REMOTE_MARKER_NAME] else []));
    }
    var m := parsed.value;
    var shapeOk := MarkerShapeOk(m);
    var macOk := key.Some? && SameDigest(Mac(m.body, key.value, t), m.mac);
    var entries := m.body.artifacts;
    var ok := shapeOk && macOk;
    if !shapeOk {
      return Some(RemoteResult(false, |entries|, 0, [], []));
    }
    if t.prims.WellFormed() && key.Some? {
      MarkerMacMeans(m, key.value, t);
    }
    var read, verified, missing, altered := CheckAll(store, stamp, entries, t.prims);
    if !read {
      return None;
    }
    return Some(RemoteResult(ok && missing == [] && altered == [], |entries|, verified, missing, altered));
  }

  datatype CheckResult = CheckThrew | CheckMissing | CheckAltered | CheckOk

  method CheckOne(store: Store, stamp: string, e: Entry, prims: Primitives) returns (r: CheckResult)
    ensures r != CheckThrew ==>
              (r == CheckOk <==> Matches(store.objects, KeyOf(stamp, e.name), e.bytes, e.sha256, prims))
    ensures r == CheckMissing ==> KeyOf(stamp, e.name) !in store.objects
    ensures r == CheckAltered ==> KeyOf(stamp, e.name) in store.objects
    ensures store.reliable ==> r != CheckThrew
  {
    var buf := store.Get(KeyOf(stamp, e.name));
    if buf.Unreadable? {
      return CheckThrew;
    }
    if buf.Missing? {
      return CheckMissing;
    }
    return if |buf.data| != e.bytes || !SameDigest(prims.sha256(buf.data), e.sha256) then CheckAltered else CheckOk;
  }

  /** Every entry in turn. */
  method CheckAll(store: Store, stamp: string, entries: seq<Entry>, prims: Primitives)
    returns (read: bool, verified: nat, missing: seq<string>, altered: seq<string>)
    ensures read ==> verified + |missing| + |altered| == |entries|
    ensures read ==> (missing == [] && altered == [] <==> Intact(store.objects, stamp, entries, prims))
    ensures forall n :: n in missing ==> KeyOf(stamp, n) !in store.objects
    ensures forall n :: n in altered ==> KeyOf(stamp, n) in store.objects
    ensures store.reliable ==> read
  {
    read, verified, missing, altered := false, 0, [], [];
    for i := 0 to |entries|
      invariant verified + |missing| + |altered| == i
      invariant missing == [] && altered == [] <==> Intact(store.objects, stamp, entries[..i], prims)
      invariant forall n :: n in missing ==> KeyOf(stamp, n) !in store.objects
      invariant forall n :: n in altered ==> KeyOf(stamp, n) in store.objects
    {
      assert entries[..i + 1] == entries[..i] + [entries[i]];
      var one := CheckOne(store, stamp, entries[i], prims);
      match one {
        case CheckThrew =>
          return;
        case CheckMissing =>
          missing := missing + [entries[i].name];
        case CheckAltered =>
          altered := altered + [entries[i].name];
        case CheckOk =>
          verified := verified + 1;
      }
    }
    assert entries[..|entries|] == entries;
    read := true;
  }

  // ---------------------------------------------------------------- publish

  datatype PublishResult =
    | Threw
    | Published(marker: Marker, applied: bool, uploaded: seq<string>, expected: nat, verifiedAtDestination: nat)

  /** The marker is never there before the set it vouches for. */
  ghost predicate CommitSafe(objects: Objects, stamp: string, entries: seq<Entry>, prims: Primitives) {
    MarkerKey(stamp) in objects ==> Intact(objects, stamp, entries, prims)
  }

  ghost function SetKeys(stamp: string, entries: seq<Entry>): set<string> {
    (set e | e in entries :: KeyOf(stamp, e.name)) + {MarkerKey(stamp)}
  }

  predicate NoCollision(entries: seq<Entry>) {
    forall e :: e in entries ==> e.name != REMOTE_MARKER_NAME
  }

  /** None of the states from position `from` on holds the key. */
  ghost predicate Absent(trail: seq<Objects>, from: nat, key: string) {
    forall i :: from <= i < |trail| ==> key !in trail[i]
  }

  /** The first n entries are stored intact. */
  ghost predicate UploadedUpTo(objects: Objects, stamp: string, entries: seq<Entry>, n: nat, prims: Primitives)
    requires n <= |entries|
  {
    forall j :: 0 <= j < n ==>
      Matches(objects, KeyOf(stamp, entries[j].name), entries[j].bytes, entries[j].sha256, prims)
  }

  /** The entries describe files of the directory, so two entries with one name agree. */
  predicate Describes(entries: seq<Entry>, files: Objects, prims: Primitives) {
    forall e :: e in entries ==> e.name in files && e == EntryFor(files, e.name, e.role, prims)
  }

  lemma {:induction false} PutKeepsOthers(before: Objects, after: Objects, stamp: string, entries: seq<Entry>, n: nat,
                                          files: Objects, prims: Primitives)
    requires n < |entries| && Describes(entries, files, prims)
    requires UploadedUpTo(before, stamp, entries, n, prims)
    requires Touched(before, after, {KeyOf(stamp, entries[n].name)})
    requires Matches(after, KeyOf(stamp, entries[n].name), entries[n].bytes, entries[n].sha256, prims)
    ensures UploadedUpTo(after, stamp, entries, n + 1, prims)
  {
    forall j | 0 <= j < n
      ensures Matches(after, KeyOf(stamp, entries[j].name), entries[j].bytes, entries[j].sha256, prims)
    {
      assert entries[j] in entries && entries[n] in entries;
      if entries[j].name != entries[n].name {
        KeysDiffer(stamp, entries[j].name, entries[n].name);
      }
    }
  }

  /** The states of a publish in which nothing fails: n uploads, and the marker after all of them. */
  function AfterUploads(objects: Objects, files: Objects, stamp: string, entries: seq<Entry>, n: nat): Objects
    requires n <= |entries| && forall e :: e in entries ==> e.name in files
  {
    if n == 0 then objects
    else
      var before := AfterUploads(objects, files, stamp, entries, n - 1);
      before[KeyOf(stamp, entries[n - 1].name) := files[entries[n - 1].name]]
  }

  /** The trail went through exactly those states. */
  ghost predicate UploadStates(trail: seq<Objects>, before: seq<Objects>, objects: Objects, files: Objects,
                               stamp: string, entries: seq<Entry>, n: nat)
    requires n <= |entries| && forall e :: e in entries ==> e.name in files
  {
    && |trail| == |before| + n
    && forall i :: 1 <= i <= n ==> trail[|before| + i - 1] == AfterUploads(objects, files, stamp, entries, i)
  }

  /** A store's state and past. */
  datatype View = View(objects: Objects, trail: seq<Objects>)

  /** Every key holds what it held before, or the file of an entry that names it. */
  ghost predicate Rewritten(before: Objects, objects: Objects, files: Objects, stamp: string, entries: seq<Entry>) {
    && before.Keys <= objects.Keys
    && forall k :: k in objects ==>
         || (k in before && objects[k] == before[k])
         || exists e :: e in entries && e.name in files && k == KeyOf(stamp, e.name) && objects[k] == files[e.name]
  }

  /** In no state was anything else than the files written. */
  ghost predicate Rewriting(a: View, b: View, files: Objects, stamp: string, entries: seq<Entry>) {
    && Rewritten(a.objects, b.objects, files, stamp, entries)
    && forall i :: |a.trail| <= i < |b.trail| ==> Rewritten(a.objects, b.trail[i], files, stamp, entries)
  }

  lemma {:induction false} RewritingStep(a: View, b: View, c: View, files: Objects, stamp: string,
                                         entries: seq<Entry>, n: nat)
    requires n < |entries| && entries[n].name in files && Rewriting(a, b, files, stamp, entries)
    requires c.trail == b.trail + [c.objects]
    requires c.objects == b.objects || c.objects == b.objects[KeyOf(stamp, entries[n].name) := files[entries[n].name]]
    ensures Rewriting(a, c, files, stamp, entries)
  {
    assert entries[n] in entries;
    assert forall i :: 0 <= i < |b.trail| ==> c.trail[i] == b.trail[i];
  }

  /** What any number of uploads, the last of which may have failed, leaves. */
  ghost predicate UploadTouched(a: View, b: View, stamp: string, entries: seq<Entry>) {
    && a.trail <= b.trail && Touched(a.objects, b.objects, SetKeys(stamp, entries))
    && (MarkerKey(stamp) !in a.objects && NoCollision(entries) ==>
          MarkerKey(stamp) !in b.objects && Absent(b.trail, |a.trail|, MarkerKey(stamp)))
  }

  /** What n uploads leave. */
  ghost predicate Uploading(a: View, b: View, files: Objects, stamp: string, entries: seq<Entry>, n: nat,
                            reliable: bool, prims: Primitives)
    requires n <= |entries| && Describes(entries, files, prims)
  {
    && UploadTouched(a, b, stamp, entries)
    && UploadedUpTo(b.objects, stamp, entries, n, prims)
    && (reliable ==>
          && b.objects == AfterUploads(a.objects, files, stamp, entries, n)
          && UploadStates(b.trail, a.trail, a.objects, files, stamp, entries, n))
  }

  lemma {:induction false} UploadingStep(a: View, b: View, c: View, files: Objects, stamp: string, entries: seq<Entry>,
                                         n: nat, matches: bool, reliable: bool, prims: Primitives)
    requires n < |entries| && Describes(entries, files, prims)
    requires Uploading(a, b, files, stamp, entries, n, reliable, prims)
    requires c.trail == b.trail + [c.objects] && Touched(b.objects, c.objects, {KeyOf(stamp, entries[n].name)})
    requires matches ==> Matches(c.objects, KeyOf(stamp, entries[n].name), entries[n].bytes, entries[n].sha256, prims)
    requires reliable ==> c.objects == b.objects[KeyOf(stamp, entries[n].name) := files[entries[n].name]]
    requires MarkerKey(stamp) !in b.objects && entries[n].name != REMOTE_MARKER_NAME ==> MarkerKey(stamp) !in c.objects
    ensures UploadTouched(a, c, stamp, entries)
    ensures matches ==> Uploading(a, c, files, stamp, entries, n + 1, reliable, prims)
  {
    UploadTouchedStep(a, b, c, stamp, entries, n);
    if matches {
      PutKeepsOthers(b.objects, c.objects, stamp, entries, n, files, prims);
    }
    if reliable {
      UploadStatesStep(a, b, c, files, stamp, entries, n);
    }
  }

  lemma {:induction false} UploadStatesStep(a: View, b: View, c: View, files: Objects, stamp: string,
                                            entries: seq<Entry>, n: nat)
    requires n < |entries| && forall e :: e in entries ==> e.name in files
    requires b.objects == AfterUploads(a.objects, files, stamp, entries, n)
    requires UploadStates(b.trail, a.trail, a.objects, files, stamp, entries, n)
    requires c.trail == b.trail + [c.objects]
             && c.objects == b.objects[KeyOf(stamp, entries[n].name) := files[entries[n].name]]
    ensures c.objects == AfterUploads(a.objects, files, stamp, entries, n + 1)
    ensures UploadStates(c.trail, a.trail, a.objects, files, stamp, entries, n + 1)
  {
    assert forall i :: 0 <= i < |b.trail| ==> c.trail[i] == b.trail[i];
  }

  lemma {:induction false} UploadTouchedStep(a: View, b: View, c: View, stamp: string, entries: seq<Entry>, n: nat)
    requires n < |entries| && UploadTouched(a, b, stamp, entries)
    requires c.trail == b.trail + [c.objects] && Touched(b.objects, c.objects, {KeyOf(stamp, entries[n].name)})
    requires MarkerKey(stamp) !in b.objects && entries[n].name != REMOTE_MARKER_NAME ==> MarkerKey(stamp) !in c.objects
    ensures UploadTouched(a, c, stamp, entries)
  {
    assert entries[n] in entries && KeyOf(stamp, entries[n].name) in SetKeys(stamp, entries);
  }

  /** One artifact: put, then re-read and compare. */
  method UploadOne(files: Objects, stamp: string, store: Store, a: Entry, prims: Primitives)
    returns (put: bool, matches: bool)
    requires a.name in files && a == EntryFor(files, a.name, a.role, prims)
    modifies store
    ensures store.trail == old(store.trail) + [store.objects]
    ensures Touched(old(store.objects), store.objects, {KeyOf(stamp, a.name)})
    ensures matches ==> put && Matches(store.objects, KeyOf(stamp, a.name), a.bytes, a.sha256, prims)
    ensures store.reliable ==> matches && store.objects == old(store.objects)[KeyOf(stamp, a.name) := files[a.name]]
    ensures store.faithful ==>
              || store.objects == old(store.objects)
              || store.objects == old(store.objects)[KeyOf(stamp, a.name) := files[a.name]]
    ensures MarkerKey(stamp) !in old(store.objects) && a.name != REMOTE_MARKER_NAME ==>
              MarkerKey(stamp) !in store.objects
  {
    matches := false;
    if a.name != REMOTE_MARKER_NAME {
      KeysDiffer(stamp, a.name, REMOTE_MARKER_NAME);
    }
    put := store.Put(KeyOf(stamp, a.name), files[a.name]);
    if !put {
      return;
    }
    var readBack := store.Get(KeyOf(stamp, a.name));
    matches := readBack.Found? && prims.sha256(readBack.data) == a.sha256 && |readBack.data| == a.bytes;
  }

  /** Upload every artifact and re-read it at the destination; stop at the first that does not match. */
  method UploadAll(files: Objects, stamp: string, store: Store, entries: seq<Entry>, t: Tools)
    returns (ok: bool, uploaded: seq<string>, verifiedAtDestination: nat)
    requires Describes(entries, files, t.prims)
    modifies store
    ensures old(store.trail) <= store.trail
    ensures Touched(old(store.objects), store.objects, SetKeys(stamp, entries))
    ensures ok ==> Intact(store.objects, stamp, entries, t.prims)
    ensures ok ==> |uploaded| == |entries| == verifiedAtDestination
    ensures store.reliable ==>
              ok && UploadStates(store.trail, old(store.trail), old(store.objects), files, stamp, entries, |entries|)
    ensures MarkerKey(stamp) !in old(store.objects) && NoCollision(entries) ==>
              MarkerKey(stamp) !in store.objects && Absent(store.trail, |old(store.trail)|, MarkerKey(stamp))
    ensures store.faithful ==>
              Rewriting(View(old(store.objects), old(store.trail)), View(store.objects, store.trail), files, stamp,
                        entries)
  {
    ok, uploaded, verifiedAtDestination := false, [], 0;
    ghost var start := View(store.objects, store.trail);
    for i := 0 to |entries|
      invariant |uploaded| == i == verifiedAtDestination
      invariant Uploading(start, View(store.objects, store.trail), files, stamp, entries, i, store.reliable, t.prims)
      invariant store.faithful ==> Rewriting(start, View(store.objects, store.trail), files, stamp, entries)
    {
      assert entries[i] in entries;
      ghost var before := View(store.objects, store.trail);
      var put, matches := UploadOne(files, stamp, store, entries[i], t.prims);
      UploadingStep(start, before, View(store.objects, store.trail), files, stamp, entries, i, matches, store.reliable,
                    t.prims);
      if store.faithful {
        RewritingStep(start, before, View(store.objects, store.trail), files, stamp, entries, i);
      }
      if put {
        uploaded := uploaded + [entries[i].name];
      }
      if !matches {
        return;
      }
      verifiedAtDestination := verifiedAtDestination + 1;
    }
    ok := true;
  }

  /** The marker's bytes are there, uncorrupted. */
  predicate Committed(objects: Objects, stamp: string, marker: Marker, t: Tools) {
    MarkerKey(stamp) in objects && objects[MarkerKey(stamp)] == t.markers.encode(marker)
  }

  /** The commit marker is written last. */
  method Commit(store: Store, stamp: string, marker: Marker, entries: seq<Entry>, t: Tools) returns (ok: bool)
    requires Intact(store.objects, stamp, entries, t.prims)
    modifies store
    ensures store.trail == old(store.trail) + [store.objects]
    ensures Touched(old(store.objects), store.objects, {MarkerKey(stamp)})
    ensures NoCollision(entries) ==> Intact(store.objects, stamp, entries, t.prims)
    ensures ok ==> MarkerKey(stamp) in store.objects
    ensures store.faithful ==>
              Committed(store.objects, stamp, marker, t) || (!ok && store.objects == old(store.objects))
    ensures store.reliable ==> ok && Committed(store.objects, stamp, marker, t)
  {
    ghost var before := store.objects;
    ok := store.Put(MarkerKey(stamp), t.markers.encode(marker));
    if NoCollision(entries) {
      MarkerKeepsSet(before, store.objects, stamp, entries, t.prims);
    }
  }

  /** The state of the store vouches for nothing it should not: a marker that is there came after the whole
      intact set, and on a faithful store it is there as written. */
  ghost predicate CommitState(objects: Objects, stamp: string, entries: seq<Entry>, marker: Marker, faithful: bool,
                              t: Tools)
  {
    && CommitSafe(objects, stamp, entries, t.prims)
    && (faithful && MarkerKey(stamp) in objects ==> Committed(objects, stamp, marker, t))
  }

  /** On a faithful store: nothing but files of the set was written so far, or the set and its marker are
      there. */
  ghost predicate RerunState(before: Objects, objects: Objects, files: Objects, stamp: string, entries: seq<Entry>,
                             marker: Marker, t: Tools)
  {
    || Rewritten(before, objects, files, stamp, entries)
    || (Intact(objects, stamp, entries, t.prims) && Committed(objects, stamp, marker, t))
  }

  method UploadAndCommit(files: Objects, stamp: string, store: Store, entries: seq<Entry>, marker: Marker, t: Tools)
    returns (r: PublishResult)
    requires Describes(entries, files, t.prims)
    modifies store
    ensures old(store.trail) <= store.trail
    ensures r.Published? ==> r.marker == marker && r.expected == |entries| && r.applied
    ensures MarkerKey(stamp) !in old(store.objects) && NoCollision(entries) ==>
              forall i :: |old(store.trail)| <= i < |store.trail| ==>
                CommitState(store.trail[i], stamp, entries, marker, store.faithful, t)
    ensures MarkerKey(stamp) !in old(store.objects) && NoCollision(entries) ==>
              CommitState(store.objects, stamp, entries, marker, store.faithful, t)
    ensures store.faithful && NoCollision(entries) ==>
              && RerunState(old(store.objects), store.objects, files, stamp, entries, marker, t)
              && forall i :: |old(store.trail)| <= i < |store.trail| ==>
                   RerunState(old(store.objects), store.trail[i], files, stamp, entries, marker, t)
    ensures r.Published? && NoCollision(entries) ==>
              && MarkerKey(stamp) in store.objects && Intact(store.objects, stamp, entries, t.prims)
              && r.verifiedAtDestination == |entries| && |r.uploaded| == |entries| + 1
    ensures store.reliable ==> r.Published? && Committed(store.objects, stamp, marker, t)
    ensures Touched(old(store.objects), store.objects, SetKeys(stamp, entries))
  {
    r := Threw;
    var ok, uploaded, verified := UploadAll(files, stamp, store, entries, t);
    if !ok {
      return;
    }
    var put := Commit(store, stamp, marker, entries, t);
    if !put {
      return;
    }
    return Published(marker, true, uploaded + [REMOTE_MARKER_NAME], |entries|, verified);
  }

  /** What `Publish` says it has published. */
  ghost predicate PublishedSet(files: Objects, entries: seq<Entry>, stamp: string, createdAt: string, key: Bytes,
                               marker: Marker, t: Tools)
  {
    && Manifest.BackupOk(files, stamp, Some(key), t.manifests, t.prims) && IsLocalSet(entries, files, stamp, t)
    && FirstOfRole(entries, "manifest").Some? && marker == BuildMarker(entries, stamp, createdAt, key, t)
  }

  /** What was published, spelled out: the marker lists the published set, and its mac is the HMAC of the
      canonical text of its own body. */
  lemma {:induction false} PublishedMeans(files: Objects, entries: seq<Entry>, stamp: string, createdAt: string,
                                          key: Bytes, marker: Marker, t: Tools)
    requires PublishedSet(files, entries, stamp, createdAt, key, marker, t)
    ensures marker.mac == t.prims.hmac(key, t.markers.canonical(marker.body))
    ensures marker.body.artifacts == entries && marker.body.expectedArtifactCount == |entries|
    ensures marker.body.stamp == stamp && marker.body.createdAt == createdAt && marker.body.completeness == "complete"
    ensures marker.body.formatVersion == 1 && marker.body.kind == "sealed-backup-remote-marker"
  {}

  /** The published set, spelled out: every artifact of the manifest, the manifest itself and the media inventory if
      there is one, and nothing else, each as it is on disk. */
  lemma {:induction false} LocalSetMeans(entries: seq<Entry>, files: Objects, stamp: string, t: Tools)
    requires Manifest.HasManifest(files, stamp, t.manifests) && IsLocalSet(entries, files, stamp, t)
    ensures var arts := Manifest.Read(files, stamp, t.manifests).body.artifacts;
            && (forall a :: a in arts ==> Lists(entries, a.name, a.role))
            && (forall e :: e in entries && e.role != "manifest" && e.role != "media-inventory" ==>
                  exists a :: a in arts && a.name == e.name && a.role == e.role)
    ensures Lists(entries, "manifest-" + stamp + ".json", "manifest")
    ensures "media-inventory-" + stamp + ".json" in files ==>
              Lists(entries, "media-inventory-" + stamp + ".json", "media-inventory")
    ensures forall e :: e in entries ==> AsOnDisk(e, files, t.prims)
  {
    var arts := Manifest.Read(files, stamp, t.manifests).body.artifacts;
    forall a | a in arts
      ensures Lists(entries, a.name, a.role)
    {
      var i :| 0 <= i < |arts| && arts[i] == a;
      assert entries[i] in entries;
    }
    assert entries[|arts|] in entries;
    if InventoryName(stamp) in files {
      assert entries[|arts| + 1] in entries;
    }
    forall e | e in entries
      ensures AsOnDisk(e, files, t.prims)
      ensures e.role != "manifest" && e.role != "media-inventory" ==>
                exists a :: a in arts && a.name == e.name && a.role == e.role
    {
      var i :| 0 <= i < |entries| && entries[i] == e;
      assert i < |arts| ==> arts[i] in arts;
    }
  }

  ghost predicate Lists(entries: seq<Entry>, name: string, role: string) {
    exists e :: e in entries && e.name == name && e.role == role
  }

  ghost predicate AsOnDisk(e: Entry, files: Objects, prims: Primitives) {
    e.name in files && e.bytes == |files[e.name]| && e.sha256 == prims.sha256(files[e.name])
  }

  /** The digests that the marker repeats are those of the manifest and of the media inventory. */
  lemma {:induction false} PublishedDigests(files: Objects, entries: seq<Entry>, stamp: string, createdAt: string,
                                            key: Bytes, marker: Marker, t: Tools)
    requires PublishedSet(files, entries, stamp, createdAt, key, marker, t)
    ensures "manifest-" + stamp + ".json" in files
    ensures marker.body.sealedManifestSha256 == t.prims.sha256(files["manifest-" + stamp + ".json"])
    ensures marker.body.mediaInventorySha256 ==
            if "media-inventory-" + stamp + ".json" in files
            then Some(t.prims.sha256(files["media-inventory-" + stamp + ".json"])) else None
  {
    KeyedBackupOk(files, stamp, key, t);
    ManifestFound(entries, files, stamp, t);
    InventoryFound(entries, files, stamp, t);
  }

  lemma {:induction false} ManifestFound(entries: seq<Entry>, files: Objects, stamp: string, t: Tools)
    requires Manifest.BackupOk(files, stamp, None, t.manifests, t.prims) && IsLocalSet(entries, files, stamp, t)
    ensures FirstOfRole(entries, "manifest") == Some(EntryFor(files, Manifest.FileName(stamp), "manifest", t.prims))
  {
    ArtifactRoles(entries, files, stamp, t);
    OnlyOfRole(entries, "manifest", |Manifest.Read(files, stamp, t.manifests).body.artifacts|);
  }

  lemma {:induction false} InventoryFound(entries: seq<Entry>, files: Objects, stamp: string, t: Tools)
    requires Manifest.BackupOk(files, stamp, None, t.manifests, t.prims) && IsLocalSet(entries, files, stamp, t)
    ensures FirstOfRole(entries, "media-inventory") ==
            if InventoryName(stamp) in files
            then Some(EntryFor(files, InventoryName(stamp), "media-inventory", t.prims)) else None
  {
    ArtifactRoles(entries, files, stamp, t);
    if InventoryName(stamp) in files {
      OnlyOfRole(entries, "media-inventory", |Manifest.Read(files, stamp, t.manifests).body.artifacts| + 1);
    } else {
      assert forall e :: e in entries ==> e.role != "media-inventory";
    }
  }

  lemma {:induction false} ArtifactRoles(entries: seq<Entry>, files: Objects, stamp: string, t: Tools)
    requires Manifest.BackupOk(files, stamp, None, t.manifests, t.prims) && IsLocalSet(entries, files, stamp, t)
    ensures forall i :: 0 <= i < |Manifest.Read(files, stamp, t.manifests).body.artifacts| ==>
              entries[i].role == "postgres" || entries[i].role == "media"
  {
    var arts := Manifest.Read(files, stamp, t.manifests).body.artifacts;
    forall i | 0 <= i < |arts|
      ensures entries[i].role == "postgres" || entries[i].role == "media"
    {
      assert arts[i] in arts && Manifest.ValidArtifact(arts[i]);
    }
  }

  lemma {:induction false} OnlyOfRole(entries: seq<Entry>, role: string, i: nat)
    requires i < |entries| && entries[i].role == role
    requires forall j :: 0 <= j < |entries| && j != i ==> entries[j].role != role
    ensures FirstOfRole(entries, role) == Some(entries[i])
  {
    assert entries[i] in entries;
  }

  /** A marker that is there as written passes remote verification, and on a faithful store one that is
      there is there as written. */
  ghost predicate MarkerHonest(objects: Objects, stamp: string, marker: Marker, key: Bytes, faithful: bool, t: Tools) {
    && (Committed(objects, stamp, marker, t) ==> RemoteOk(objects, stamp, Some(key), t))
    && (faithful && MarkerKey(stamp) in objects ==> Committed(objects, stamp, marker, t))
  }

  /** MAIN: publish. Nothing is written unless the local set verified. Then, whatever call throws, whatever
      write is corrupted, and wherever the process dies: in every state of the store (none before held a
      marker) a marker that is there as written passes remote verification, and on a store that corrupts
      nothing every marker that is there is one. The same holds of the store that is left behind, whether
      the publish returned or threw. */
  method Publish(files: Objects, stamp: string, store: Store, key: Bytes, createdAt: string, apply: bool, t: Tools)
    returns (r: PublishResult, ghost entries: seq<Entry>, ghost marker: Option<Marker>)
    requires t.Sound()
    modifies store
    ensures old(store.trail) <= store.trail
    ensures marker.Some? ==> SafeStamp(stamp) && PublishedSet(files, entries, stamp, createdAt, key, marker.value, t)
    ensures marker.Some? ==> marker.value.mac == t.prims.hmac(key, t.markers.canonical(marker.value.body))
    ensures store.trail != old(store.trail) || store.objects != old(store.objects) ==> apply && marker.Some?
    ensures r.Published? ==> marker == Some(r.marker) && r.expected == |entries| && r.applied == apply
    ensures marker.Some? && MarkerKey(stamp) !in old(store.objects) && NoCollision(entries) ==>
              forall i :: |old(store.trail)| <= i < |store.trail| ==>
                && CommitState(store.trail[i], stamp, entries, marker.value, store.faithful, t)
                && MarkerHonest(store.trail[i], stamp, marker.value, key, store.faithful, t)
    ensures marker.Some? && MarkerKey(stamp) !in old(store.objects) && NoCollision(entries) ==>
              && CommitState(store.objects, stamp, entries, marker.value, store.faithful, t)
              && MarkerHonest(store.objects, stamp, marker.value, key, store.faithful, t)
    ensures marker.Some? && store.faithful && NoCollision(entries) ==>
              && RerunState(old(store.objects), store.objects, files, stamp, entries, marker.value, t)
              && forall i :: |old(store.trail)| <= i < |store.trail| ==>
                   RerunState(old(store.objects), store.trail[i], files, stamp, entries, marker.value, t)
    ensures r.Published? && apply && NoCollision(entries) ==>
              && MarkerKey(stamp) in store.objects && Intact(store.objects, stamp, entries, t.prims)
              && r.verifiedAtDestination == |entries| && |r.uploaded| == |entries| + 1
    ensures store.reliable && SafeStamp(stamp) && Manifest.BackupOk(files, stamp, Some(key), t.manifests, t.prims) ==>
              r.Published? && (apply ==> Committed(store.objects, stamp, r.marker, t))
    ensures Touched(old(store.objects), store.objects, SetKeys(stamp, entries))
  {
    r, entries, marker := Threw, [], None;
    if !SafeStamp(stamp) {
      return;
    }
    var local := Manifest.VerifyBackup(files, stamp, Some(key), t.manifests, t.prims);
    if local.None? || !local.value.ok {
      return;
    }
    var listed := LocalArtifacts(files, stamp, t);
    LocalSetHasManifest(listed, files, stamp, t);
    LocalSetDescribes(listed, files, stamp, t);
    var built := BuildMarker(listed, stamp, createdAt, key, t);
    entries, marker := listed, Some(built);
    if !apply {
      NothingRewritten(store.objects, files, stamp, listed);
      return Published(built, false, [], |listed|, 0), listed, Some(built);
    }
    r := UploadAndCommit(files, stamp, store, listed, built, t);
    HonestStates(store.trail, |old(store.trail)|, files, listed, stamp, createdAt, key, built, store.faithful, t);
    HonestState(store.objects, files, listed, stamp, createdAt, key, built, store.faithful, t);
  }

  lemma {:induction false} NothingRewritten(objects: Objects, files: Objects, stamp: string, entries: seq<Entry>)
    ensures Rewritten(objects, objects, files, stamp, entries)
  {}

  lemma {:induction false} HonestState(objects: Objects, files: Objects, entries: seq<Entry>, stamp: string,
                                       createdAt: string, key: Bytes, marker: Marker, faithful: bool, t: Tools)
    requires t.Sound() && PublishedSet(files, entries, stamp, createdAt, key, marker, t)
    ensures CommitState(objects, stamp, entries, marker, faithful, t) ==>
              MarkerHonest(objects, stamp, marker, key, faithful, t)
  {
    if CommitState(objects, stamp, entries, marker, faithful, t) && Committed(objects, stamp, marker, t) {
      MarkerTellsTheTruth(objects, entries, files, stamp, createdAt, key, t);
    }
  }

  lemma {:induction false} HonestStates(trail: seq<Objects>, from: nat, files: Objects, entries: seq<Entry>,
                                        stamp: string, createdAt: string, key: Bytes, marker: Marker, faithful: bool,
                                        t: Tools)
    requires t.Sound() && PublishedSet(files, entries, stamp, createdAt, key, marker, t)
    ensures forall i :: from <= i < |trail| && CommitState(trail[i], stamp, entries, marker, faithful, t) ==>
              MarkerHonest(trail[i], stamp, marker, key, faithful, t)
  {
    forall i | from <= i < |trail|
      ensures CommitState(trail[i], stamp, entries, marker, faithful, t) ==>
                MarkerHonest(trail[i], stamp, marker, key, faithful, t)
    {
      HonestState(trail[i], files, entries, stamp, createdAt, key, marker, faithful, t);
    }
  }

  // ---------------------------------------------------------------- publishing again

  /** The files of the listed names, where there are any, are what the list records. */
  predicate SameFiles(listed: seq<Entry>, files: Objects, prims: Primitives) {
    forall e :: e in listed && e.name in files ==>
      |files[e.name]| == e.bytes && SameDigest(prims.sha256(files[e.name]), e.sha256)
  }

  lemma {:induction false} RewrittenIsIntact(before: Objects, objects: Objects, files: Objects, stamp: string,
                                             entries: seq<Entry>, listed: seq<Entry>, prims: Primitives)
    requires Rewritten(before, objects, files, stamp, entries)
    requires Intact(before, stamp, listed, prims) && SameFiles(listed, files, prims)
    ensures Intact(objects, stamp, listed, prims)
  {
    forall e | e in listed
      ensures Matches(objects, KeyOf(stamp, e.name), e.bytes, e.sha256, prims)
    {
      var k := KeyOf(stamp, e.name);
      if objects[k] != before[k] {
        var f :| f in entries && f.name in files && k == KeyOf(stamp, f.name) && objects[k] == files[f.name];
        if f.name != e.name {
          KeysDiffer(stamp, f.name, e.name);
        }
      }
    }
  }

  lemma {:induction false} RewrittenKeepsMarker(before: Objects, objects: Objects, files: Objects, stamp: string,
                                                entries: seq<Entry>)
    requires Rewritten(before, objects, files, stamp, entries) && NoCollision(entries) && MarkerKey(stamp) in before
    ensures objects[MarkerKey(stamp)] == before[MarkerKey(stamp)]
  {
    forall e | e in entries
      ensures KeyOf(stamp, e.name) != MarkerKey(stamp)
    {
      KeysDiffer(stamp, e.name, REMOTE_MARKER_NAME);
    }
  }

  lemma {:induction false} SameMarkerIsOk(before: Objects, objects: Objects, stamp: string, key: Bytes, t: Tools)
    requires RemoteOk(before, stamp, Some(key), t) && MarkerKey(stamp) in objects
    requires objects[MarkerKey(stamp)] == before[MarkerKey(stamp)]
    requires Intact(objects, stamp, ReadMarker(before, stamp, t).body.artifacts, t.prims)
    ensures RemoteOk(objects, stamp, Some(key), t)
  {}

  lemma {:induction false} RerunIsOk(before: Objects, objects: Objects, files: Objects, stamp: string,
                                     entries: seq<Entry>, createdAt: string, key: Bytes, marker: Marker, t: Tools)
    requires t.Sound() && PublishedSet(files, entries, stamp, createdAt, key, marker, t) && NoCollision(entries)
    requires RemoteOk(before, stamp, Some(key), t)
    requires SameFiles(ReadMarker(before, stamp, t).body.artifacts, files, t.prims)
    requires RerunState(before, objects, files, stamp, entries, marker, t)
    ensures RemoteOk(objects, stamp, Some(key), t)
  {
    if Rewritten(before, objects, files, stamp, entries) {
      RewrittenKeepsMarker(before, objects, files, stamp, entries);
      RewrittenIsIntact(before, objects, files, stamp, entries, ReadMarker(before, stamp, t).body.artifacts, t.prims);
      SameMarkerIsOk(before, objects, stamp, key, t);
    } else {
      MarkerTellsTheTruth(objects, entries, files, stamp, createdAt, key, t);
    }
  }

  /** MAIN: publishing again over a committed set is safe, whatever throws and wherever it dies: on a store
      that corrupts nothing the remote set verifies in every state, if the files of the names it lists are
      still the ones it records, as they are when the same backup is published again. */
  method PublishAgain(files: Objects, stamp: string, store: Store, key: Bytes, createdAt: string, t: Tools)
    returns (r: PublishResult)
    requires t.Sound() && store.faithful && REMOTE_MARKER_NAME !in files
    requires RemoteOk(store.objects, stamp, Some(key), t)
    requires SameFiles(ReadMarker(store.objects, stamp, t).body.artifacts, files, t.prims)
    modifies store
    ensures old(store.trail) <= store.trail
    ensures forall i :: |old(store.trail)| <= i < |store.trail| ==> RemoteOk(store.trail[i], stamp, Some(key), t)
    ensures RemoteOk(store.objects, stamp, Some(key), t)
  {
    ghost var before, from, entries, marker := store.objects, |store.trail|, [], None;
    r, entries, marker := Publish(files, stamp, store, key, createdAt, true, t);
    if marker.Some? {
      LocalSetDescribes(entries, files, stamp, t);
      RerunIsOk(before, store.objects, files, stamp, entries, createdAt, key, marker.value, t);
      RerunsAreOk(before, store.trail, from, files, stamp, entries, createdAt, key, marker.value, t);
    }
  }

  lemma {:induction false} RerunsAreOk(before: Objects, trail: seq<Objects>, from: nat, files: Objects, stamp: string,
                                       entries: seq<Entry>, createdAt: string, key: Bytes, marker: Marker, t: Tools)
    requires t.Sound() && PublishedSet(files, entries, stamp, createdAt, key, marker, t) && NoCollision(entries)
    requires RemoteOk(before, stamp, Some(key), t)
    requires SameFiles(ReadMarker(before, stamp, t).body.artifacts, files, t.prims)
    requires forall i :: from <= i < |trail| ==> RerunState(before, trail[i], files, stamp, entries, marker, t)
    ensures forall i :: from <= i < |trail| ==> RemoteOk(trail[i], stamp, Some(key), t)
  {
    forall i | from <= i < |trail|
      ensures RemoteOk(trail[i], stamp, Some(key), t)
    {
      RerunIsOk(before, trail[i], files, stamp, entries, createdAt, key, marker, t);
    }
  }

  /** The condition on each put is exact: writing over an artifact of a committed set leaves a set that
      verifies if and only if what is stored has the recorded size and digest. */
  lemma {:induction false} RewriteIsOkIff(objects: Objects, stamp: string, key: Bytes, e: Entry, data: Bytes, t: Tools)
    requires RemoteOk(objects, stamp, Some(key), t) && e in ReadMarker(objects, stamp, t).body.artifacts
    requires e.name != REMOTE_MARKER_NAME
    ensures RemoteOk(objects[KeyOf(stamp, e.name) := data], stamp, Some(key), t) <==>
            |data| == e.bytes && SameDigest(t.prims.sha256(data), e.sha256)
  {
    KeysDiffer(stamp, e.name, REMOTE_MARKER_NAME);
    var after, m := objects[KeyOf(stamp, e.name) := data], ReadMarker(objects, stamp, t);
    RewriteKeepsSetIff(objects, stamp, m.body.artifacts, e, data, t.prims);
    assert HasMarker(after, stamp, t) && ReadMarker(after, stamp, t) == m;
  }

  lemma {:induction false} RewriteKeepsSetIff(objects: Objects, stamp: string, entries: seq<Entry>, e: Entry,
                                              data: Bytes, prims: Primitives)
    requires Intact(objects, stamp, entries, prims) && e in entries
    ensures Intact(objects[KeyOf(stamp, e.name) := data], stamp, entries, prims) <==>
            |data| == e.bytes && SameDigest(prims.sha256(data), e.sha256)
  {
    var after := objects[KeyOf(stamp, e.name) := data];
    if |data| == e.bytes && SameDigest(prims.sha256(data), e.sha256) {
      forall f | f in entries
        ensures Matches(after, KeyOf(stamp, f.name), f.bytes, f.sha256, prims)
      {
        assert Matches(objects, KeyOf(stamp, f.name), f.bytes, f.sha256, prims);
        assert Matches(objects, KeyOf(stamp, e.name), e.bytes, e.sha256, prims);
      }
    } else {
      assert !Matches(after, KeyOf(stamp, e.name), e.bytes, e.sha256, prims);
    }
  }

  lemma {:induction false} MarkerKeepsSet(before: Objects, after: Objects, stamp: string, entries: seq<Entry>,
                                          prims: Primitives)
    requires NoCollision(entries) && Intact(before, stamp, entries, prims)
    requires Touched(before, after, {MarkerKey(stamp)})
    ensures Intact(after, stamp, entries, prims)
  {
    forall e | e in entries
      ensures Matches(after, KeyOf(stamp, e.name), e.bytes, e.sha256, prims)
    {
      KeysDiffer(stamp, e.name, REMOTE_MARKER_NAME);
    }
  }

  lemma {:induction false} LocalSetDescribes(entries: seq<Entry>, files: Objects, stamp: string, t: Tools)
    requires Manifest.HasManifest(files, stamp, t.manifests) && IsLocalSet(entries, files, stamp, t)
    ensures Describes(entries, files, t.prims)
  {}

  lemma {:induction false} LocalSetHasManifest(entries: seq<Entry>, files: Objects, stamp: string, t: Tools)
    requires Manifest.HasManifest(files, stamp, t.manifests) && IsLocalSet(entries, files, stamp, t)
    ensures FirstOfRole(entries, "manifest").Some?
  {
    var n := |Manifest.Read(files, stamp, t.manifests).body.artifacts|;
    assert entries[n] in entries && entries[n].role == "manifest";
  }

  // ---------------------------------------------------------------- what a present marker means

  lemma {:induction false} LocalEntriesValid(entries: seq<Entry>, files: Objects, stamp: string, t: Tools)
    requires Manifest.BackupOk(files, stamp, None, t.manifests, t.prims) && t.prims.WellFormed()
    requires IsLocalSet(entries, files, stamp, t)
    ensures forall e :: e in entries ==> ValidEntry(e)
  {
    var arts := Manifest.Read(files, stamp, t.manifests).body.artifacts;
    forall i | 0 <= i < |entries|
      ensures ValidEntry(entries[i])
    {
      if i < |arts| {
        assert arts[i] in arts && Manifest.ValidArtifact(arts[i]);
      }
    }
  }

  lemma {:induction false} LocalSetHasPostgres(entries: seq<Entry>, files: Objects, stamp: string, t: Tools)
    requires Manifest.BackupOk(files, stamp, None, t.manifests, t.prims)
    requires IsLocalSet(entries, files, stamp, t)
    ensures exists e :: e in entries && e.role == "postgres"
  {
    var arts := Manifest.Read(files, stamp, t.manifests).body.artifacts;
    var a :| a in arts && a.role == "postgres";
    var i :| 0 <= i < |arts| && arts[i] == a;
    assert entries[i] in entries;
  }

  lemma {:induction false} BuiltMarkerShape(entries: seq<Entry>, stamp: string, createdAt: string, key: Bytes, t: Tools)
    requires t.prims.WellFormed() && FirstOfRole(entries, "manifest").Some?
    requires forall e :: e in entries ==> ValidEntry(e)
    requires exists e :: e in entries && e.role == "postgres"
    ensures MarkerShapeOk(BuildMarker(entries, stamp, createdAt, key, t))
  {}

  lemma {:induction false} BuiltMarkerIsValid(entries: seq<Entry>, files: Objects, stamp: string,
                                              createdAt: string, key: Bytes, t: Tools)
    requires Manifest.BackupOk(files, stamp, None, t.manifests, t.prims) && t.prims.WellFormed()
    requires IsLocalSet(entries, files, stamp, t) && FirstOfRole(entries, "manifest").Some?
    ensures MarkerShapeOk(BuildMarker(entries, stamp, createdAt, key, t))
  {
    LocalEntriesValid(entries, files, stamp, t);
    LocalSetHasPostgres(entries, files, stamp, t);
    BuiltMarkerShape(entries, stamp, createdAt, key, t);
  }

  /** Verifying with the key is at least as strict as verifying without one. */
  lemma {:induction false} KeyedBackupOk(files: Objects, stamp: string, key: Bytes, t: Tools)
    requires Manifest.BackupOk(files, stamp, Some(key), t.manifests, t.prims)
    ensures Manifest.BackupOk(files, stamp, None, t.manifests, t.prims)
  {}

  /** MAIN: an uncorrupted marker over an intact set passes remote verification with every artifact
      verified; so in every state of a publish, a marker that is there and readable is the truth. */
  lemma {:induction false} MarkerTellsTheTruth(objects: Objects, entries: seq<Entry>, files: Objects, stamp: string,
                                               createdAt: string, key: Bytes, t: Tools)
    requires t.Sound() && Manifest.BackupOk(files, stamp, Some(key), t.manifests, t.prims)
    requires IsLocalSet(entries, files, stamp, t) && FirstOfRole(entries, "manifest").Some?
    requires CommitSafe(objects, stamp, entries, t.prims)
    requires Committed(objects, stamp, BuildMarker(entries, stamp, createdAt, key, t), t)
    ensures RemoteOk(objects, stamp, Some(key), t)
    ensures ReadMarker(objects, stamp, t).body.artifacts == entries
  {
    var marker := BuildMarker(entries, stamp, createdAt, key, t);
    KeyedBackupOk(files, stamp, key, t);
    BuiltMarkerIsValid(entries, files, stamp, createdAt, key, t);
    assert t.markers.decode(t.markers.encode(marker)) == Document(marker);
    CommittedIsOk(objects, marker, stamp, key, t);
  }

  lemma {:induction false} CommittedIsOk(objects: Objects, marker: Marker, stamp: string, key: Bytes, t: Tools)
    requires HasMarker(objects, stamp, t) && ReadMarker(objects, stamp, t) == marker
    requires MarkerShapeOk(marker) && marker.mac == Mac(marker.body, key, t)
    requires Intact(objects, stamp, marker.body.artifacts, t.prims)
    ensures RemoteOk(objects, stamp, Some(key), t)
  {}

  lemma {:induction false} MarkerAppears(objects: Objects, files: Objects, stamp: string, entries: seq<Entry>, n: nat)
    requires n <= |entries| && forall e :: e in entries ==> e.name in files
    requires MarkerKey(stamp) !in objects
    ensures var st := AfterUploads(objects, files, stamp, entries, n);
            && (MarkerKey(stamp) in st <==> exists i :: 0 <= i < n && entries[i].name == REMOTE_MARKER_NAME)
            && (MarkerKey(stamp) in st ==>
                  REMOTE_MARKER_NAME in files && st[MarkerKey(stamp)] == files[REMOTE_MARKER_NAME])
  {
    if n > 0 {
      MarkerAppears(objects, files, stamp, entries, n - 1);
      assert entries[n - 1] in entries;
      if entries[n - 1].name != REMOTE_MARKER_NAME {
        KeysDiffer(stamp, entries[n - 1].name, REMOTE_MARKER_NAME);
      }
    }
  }

  /** Which names are safe: when no artifact is itself a marker document, "a marker is present only
      if remote verification succeeds" holds after every upload exactly when no artifact carries the
      marker's name. */
  lemma {:induction false} UploadsAreSafeIffNoCollision(objects: Objects, files: Objects, stamp: string,
                                                        entries: seq<Entry>, key: Bytes, t: Tools)
    requires MarkerKey(stamp) !in objects
    requires forall e :: e in entries ==> e.name in files && !t.markers.decode(files[e.name]).Document?
    ensures NoCollision(entries) <==>
            forall n :: 0 <= n <= |entries| ==>
              UploadStateOk(AfterUploads(objects, files, stamp, entries, n), stamp, key, t)
  {
    forall n | 0 <= n <= |entries|
      ensures NoCollision(entries) ==> MarkerKey(stamp) !in AfterUploads(objects, files, stamp, entries, n)
    {
      MarkerAppears(objects, files, stamp, entries, n);
    }
    if !NoCollision(entries) {
      var e :| e in entries && e.name == REMOTE_MARKER_NAME;
      MarkerAppears(objects, files, stamp, entries, |entries|);
      assert !UploadStateOk(AfterUploads(objects, files, stamp, entries, |entries|), stamp, key, t);
    }
  }

  ghost predicate UploadStateOk(objects: Objects, stamp: string, key: Bytes, t: Tools) {
    MarkerKey(stamp) in objects ==> RemoteOk(objects, stamp, Some(key), t)
  }

  // ---------------------------------------------------------------- fetch

  /** The stored marker's mac is the HMAC of the canonical text of the stored body. */
  ghost predicate Authentic(objects: Objects, stamp: string, key: Bytes, t: Tools) {
    && HasMarker(objects, stamp, t)
    && var m := ReadMarker(objects, stamp, t);
       m.mac == t.prims.hmac(key, t.markers.canonical(m.body))
  }

  lemma {:induction false} OkIsAuthentic(objects: Objects, stamp: string, key: Bytes, t: Tools)
    requires t.prims.WellFormed() && RemoteOk(objects, stamp, Some(key), t)
    ensures Authentic(objects, stamp, key, t)
  {
    MarkerMacMeans(ReadMarker(objects, stamp, t), key, t);
  }

  class Directory {
    var files: Objects
  }

  datatype FetchResult = FetchThrew | FetchedSet(files: seq<string>, verified: nat, expected: nat)

  /** Fetch a committed set. A result means the remote set was committed and intact, and every listed
      artifact is now a local file with the listed size and digest. */
  method Fetch(store: Store, stamp: string, key: Bytes, dest: Directory, t: Tools) returns (r: FetchResult)
    requires SafeStamp(stamp)
    modifies dest
    ensures r.FetchedSet? ==> RemoteOk(store.objects, stamp, Some(key), t)
    ensures r.FetchedSet? ==>
              && r.verified == r.expected == |ReadMarker(store.objects, stamp, t).body.artifacts| == |r.files|
              && Downloaded(dest.files, ReadMarker(store.objects, stamp, t).body.artifacts, t.prims)
              && REMOTE_MARKER_NAME in dest.files && dest.files[REMOTE_MARKER_NAME] == store.objects[MarkerKey(stamp)]
    ensures !RemoteOk(store.objects, stamp, Some(key), t) ==> dest.files == old(dest.files)
    ensures t.prims.WellFormed() && !Authentic(store.objects, stamp, key, t) ==>
              r == FetchThrew && dest.files == old(dest.files)
    ensures FetchedInto(old(dest.files), dest.files, store.objects, stamp, t)
    ensures store.reliable && RemoteOk(store.objects, stamp, Some(key), t) ==> r.FetchedSet?
  {
    var verified := IsVerified(store, stamp, key, t);
    if !verified {
      return FetchThrew;
    }
    r := FetchListed(store, stamp, dest, t);
  }

  /** Download what the stored marker lists, then the marker itself. */
  method FetchListed(store: Store, stamp: string, dest: Directory, t: Tools) returns (r: FetchResult)
    requires HasMarker(store.objects, stamp, t)
    requires Intact(store.objects, stamp, ReadMarker(store.objects, stamp, t).body.artifacts, t.prims)
    modifies dest
    ensures r.FetchedSet? ==>
              && r.verified == r.expected == |ReadMarker(store.objects, stamp, t).body.artifacts| == |r.files|
              && Downloaded(dest.files, ReadMarker(store.objects, stamp, t).body.artifacts, t.prims)
              && REMOTE_MARKER_NAME in dest.files && dest.files[REMOTE_MARKER_NAME] == store.objects[MarkerKey(stamp)]
    ensures FetchedInto(old(dest.files), dest.files, store.objects, stamp, t)
    ensures store.reliable ==> r.FetchedSet?
  {
    var raw := store.Get(MarkerKey(stamp));
    if !raw.Found? {
      return FetchThrew;
    }
    var entries := t.markers.decode(raw.data).value.body.artifacts;
    ghost var from := dest.files;
    var ok, files := DownloadAll(store, stamp, entries, dest, t);
    FetchStep(from, dest.files, store.objects, stamp, t);
    if !ok {
      return FetchThrew;
    }
    dest.files := dest.files[REMOTE_MARKER_NAME := raw.data];
    return FetchedSet(files, |files|, |entries|);
  }

  /** Whether verification could be carried out and succeeded. */
  method IsVerified(store: Store, stamp: string, key: Bytes, t: Tools) returns (ok: bool)
    requires SafeStamp(stamp)
    ensures ok ==> RemoteOk(store.objects, stamp, Some(key), t)
    ensures ok && t.prims.WellFormed() ==> Authentic(store.objects, stamp, key, t)
    ensures store.reliable && RemoteOk(store.objects, stamp, Some(key), t) ==> ok
  {
    if t.prims.WellFormed() && RemoteOk(store.objects, stamp, Some(key), t) {
      OkIsAuthentic(store.objects, stamp, key, t);
    }
    var verify := VerifyRemote(store, stamp, Some(key), t);
    ok := verify.Some? && verify.value.ok;
  }

  method DownloadAll(store: Store, stamp: string, entries: seq<Entry>, dest: Directory, t: Tools)
    returns (ok: bool, files: seq<string>)
    requires Intact(store.objects, stamp, entries, t.prims)
    modifies dest
    ensures ok ==> Downloaded(dest.files, entries, t.prims) && |files| == |entries|
    ensures forall i :: 0 <= i < |files| ==> i < |entries| && files[i] == entries[i].name
    ensures CopiedFrom(old(dest.files), dest.files, store.objects, stamp, set e | e in entries :: e.name)
    ensures store.reliable ==> ok
  {
    ok, files := false, [];
    ghost var before, names := dest.files, set e | e in entries :: e.name;
    for i := 0 to |entries|
      invariant |files| == i
      invariant Downloaded(dest.files, entries[..i], t.prims)
      invariant forall j :: 0 <= j < |files| ==> files[j] == entries[j].name
      invariant CopiedFrom(before, dest.files, store.objects, stamp, names)
    {
      var e := entries[i];
      assert e in entries;
      var buf := store.Get(KeyOf(stamp, e.name));
      if !buf.Found? || |buf.data| != e.bytes || !SameDigest(t.prims.sha256(buf.data), e.sha256) {
        return;
      }
      DownloadStep(store.objects, dest.files, stamp, entries, i, t.prims);
      CopiedNext(before, dest.files, store.objects, stamp, names, e.name);
      dest.files := dest.files[e.name := buf.data];
      files := files + [e.name];
    }
    assert entries[..|entries|] == entries;
    ok := true;
  }

  /** Nothing changed but files of these names, which hold what the store holds under them. */
  ghost predicate CopiedFrom(before: Objects, after: Objects, objects: Objects, stamp: string, names: set<string>) {
    && before.Keys <= after.Keys
    && forall n :: n in after ==>
         || (n in before && after[n] == before[n])
         || (n in names && KeyOf(stamp, n) in objects && after[n] == objects[KeyOf(stamp, n)])
  }

  lemma {:induction false} CopiedNext(before: Objects, after: Objects, objects: Objects, stamp: string,
                                      names: set<string>, name: string)
    requires CopiedFrom(before, after, objects, stamp, names) && name in names && KeyOf(stamp, name) in objects
    ensures CopiedFrom(before, after[name := objects[KeyOf(stamp, name)]], objects, stamp, names)
  {}

  /** The local files are untouched, or changed only by copies of what the stored marker lists and of
      the marker itself. */
  ghost predicate FetchedInto(before: Objects, after: Objects, objects: Objects, stamp: string, t: Tools) {
    || after == before
    || (HasMarker(objects, stamp, t) && CopiedFrom(before, after, objects, stamp, FetchNames(objects, stamp, t)))
  }

  ghost function FetchNames(objects: Objects, stamp: string, t: Tools): set<string>
    requires HasMarker(objects, stamp, t)
  {
    (set e | e in ReadMarker(objects, stamp, t).body.artifacts :: e.name) + {REMOTE_MARKER_NAME}
  }

  lemma {:induction false} FetchStep(before: Objects, after: Objects, objects: Objects, stamp: string, t: Tools)
    requires HasMarker(objects, stamp, t)
    requires var entries := ReadMarker(objects, stamp, t).body.artifacts;
             CopiedFrom(before, after, objects, stamp, set e | e in entries :: e.name)
    ensures FetchedInto(before, after, objects, stamp, t)
    ensures FetchedInto(before, after[REMOTE_MARKER_NAME := objects[MarkerKey(stamp)]], objects, stamp, t)
  {}

  /** Every entry is a local file of its size and digest (the marker itself is written over its name). */
  ghost predicate Downloaded(dest: Objects, entries: seq<Entry>, prims: Primitives) {
    forall e :: e in entries && e.name != REMOTE_MARKER_NAME ==> Matches(dest, e.name, e.bytes, e.sha256, prims)
  }

  /** Two entries of one name describe one stored object, so a later download keeps the earlier ones. */
  lemma {:induction false} DownloadStep(objects: Objects, dest: Objects, stamp: string, entries: seq<Entry>,
                                        i: nat, prims: Primitives)
    requires i < |entries| && Intact(objects, stamp, entries, prims) && Downloaded(dest, entries[..i], prims)
    requires KeyOf(stamp, entries[i].name) in objects
    ensures Downloaded(dest[entries[i].name := objects[KeyOf(stamp, entries[i].name)]], entries[..i + 1], prims)
  {
    forall e | e in entries[..i + 1] && e.name == entries[i].name
      ensures Matches(objects, KeyOf(stamp, e.name), e.bytes, e.sha256, prims)
    {
      assert e in entries;
    }
    assert entries[i] in entries && forall e :: e in entries[..i + 1] ==> e in entries[..i] || e == entries[i];
  }

  lemma {:induction false} MatchesMeansEqual(e: Entry, files: Objects, dest: Objects, prims: Primitives)
    requires prims.WellFormed() && prims.CollisionFreeOn(files.Values + dest.Values)
    requires e.name in files && e == EntryFor(files, e.name, e.role, prims)
    requires Matches(dest, e.name, e.bytes, e.sha256, prims)
    ensures dest[e.name] == files[e.name]
  {
    assert files[e.name] in files.Values && dest[e.name] in dest.Values;
    SameDigestIsEquality(prims.sha256(dest[e.name]), e.sha256);
  }

  /** MAIN: fetching what was published yields byte-identical files, and the fetched directory is a
      verified backup exactly as the published one was. */
  lemma {:induction false} FetchInvertsPublish(files: Objects, dest: Objects, entries: seq<Entry>, stamp: string,
                                               key: Bytes, t: Tools)
    requires t.Sound() && t.prims.CollisionFreeOn(files.Values + dest.Values)
    requires Manifest.BackupOk(files, stamp, Some(key), t.manifests, t.prims) && IsLocalSet(entries, files, stamp, t)
    requires forall e :: e in entries ==> Matches(dest, e.name, e.bytes, e.sha256, t.prims)
    ensures forall e :: e in entries ==> e.name in files && e.name in dest && dest[e.name] == files[e.name]
    ensures Manifest.BackupOk(dest, stamp, Some(key), t.manifests, t.prims)
  {
    LocalSetDescribes(entries, files, stamp, t);
    forall e | e in entries
      ensures e.name in dest && dest[e.name] == files[e.name]
    {
      MatchesMeansEqual(e, files, dest, t.prims);
    }
    var m := Manifest.Read(files, stamp, t.manifests);
    assert entries[|m.body.artifacts|] in entries;
    forall a | a in m.body.artifacts
      ensures Manifest.ArtifactOk(a, dest, Some(key), t.prims)
    {
      var i :| 0 <= i < |m.body.artifacts| && m.body.artifacts[i] == a;
      assert entries[i] in entries && Manifest.ArtifactOk(a, files, Some(key), t.prims);
    }
  }

  /** Every file is back, byte for byte, and the directory verifies. */
  ghost predicate FetchedBack(files: Objects, dest: Objects, entries: seq<Entry>, stamp: string, key: Bytes, t: Tools) {
    && (forall e :: e in entries ==> e.name in dest && e.name in files && dest[e.name] == files[e.name])
    && Manifest.BackupOk(dest, stamp, Some(key), t.manifests, t.prims)
  }

  /** ... provided that no two of the local and the fetched files share a digest. */
  ghost predicate RestoredFrom(files: Objects, dest: Objects, entries: seq<Entry>, stamp: string, key: Bytes,
                               t: Tools)
  {
    t.prims.CollisionFreeOn(files.Values + dest.Values) ==> FetchedBack(files, dest, entries, stamp, key, t)
  }

  lemma {:induction false} PublishedSetIsOk(objects: Objects, files: Objects, entries: seq<Entry>, stamp: string,
                                            createdAt: string,
                                            key: Bytes, marker: Marker, t: Tools)
    requires t.Sound() && PublishedSet(files, entries, stamp, createdAt, key, marker, t)
    requires Intact(objects, stamp, entries, t.prims) && Committed(objects, stamp, marker, t)
    ensures RemoteOk(objects, stamp, Some(key), t) && ReadMarker(objects, stamp, t).body.artifacts == entries
  {
    MarkerTellsTheTruth(objects, entries, files, stamp, createdAt, key, t);
  }

  lemma {:induction false} DownloadedIsBack(files: Objects, dest: Objects, entries: seq<Entry>, stamp: string,
                                            createdAt: string, key: Bytes, marker: Marker, t: Tools)
    requires t.Sound() && PublishedSet(files, entries, stamp, createdAt, key, marker, t)
    requires Downloaded(dest, entries, t.prims) && NoCollision(entries)
    ensures RestoredFrom(files, dest, entries, stamp, key, t)
  {
    if t.prims.CollisionFreeOn(files.Values + dest.Values) {
      FetchInvertsPublish(files, dest, entries, stamp, key, t);
    }
  }

  method FetchPublished(stamp: string, store: Store, key: Bytes, dest: Directory, t: Tools, ghost entries: seq<Entry>,
                        ghost good: bool)
    returns (restored: bool)
    requires SafeStamp(stamp)
    requires good ==>
               && RemoteOk(store.objects, stamp, Some(key), t)
               && ReadMarker(store.objects, stamp, t).body.artifacts == entries
    modifies dest
    ensures restored && good ==> Downloaded(dest.files, entries, t.prims)
    ensures store.reliable && good ==> restored
  {
    var fetched := Fetch(store, stamp, key, dest, t);
    restored := fetched.FetchedSet?;
  }

  method PublishSet(files: Objects, stamp: string, store: Store, key: Bytes, createdAt: string, t: Tools)
    returns (r: PublishResult, ghost entries: seq<Entry>, ghost marker: Option<Marker>)
    requires t.Sound()
    modifies store
    ensures marker.Some? ==> SafeStamp(stamp) && PublishedSet(files, entries, stamp, createdAt, key, marker.value, t)
    ensures r.Published? ==> marker == Some(r.marker)
    ensures r.Published? && NoCollision(entries) ==> Intact(store.objects, stamp, entries, t.prims)
    ensures store.reliable && SafeStamp(stamp) && Manifest.BackupOk(files, stamp, Some(key), t.manifests, t.prims) ==>
              r.Published? && Committed(store.objects, stamp, r.marker, t)
  {
    r, entries, marker := Publish(files, stamp, store, key, createdAt, true, t);
  }

  /** The two operations composed. On a reliable store, publishing a verified backup and fetching it
      restores every file; on any store they do so unless a call throws or the marker itself is corrupted. */
  method PublishThenFetch(files: Objects, stamp: string, store: Store, key: Bytes, createdAt: string, dest: Directory,
                          t: Tools)
    returns (restored: bool, ghost entries: seq<Entry>, ghost marker: Option<Marker>)
    requires t.Sound()
    modifies store, dest
    ensures restored ==> marker.Some? && PublishedSet(files, entries, stamp, createdAt, key, marker.value, t)
    ensures restored && NoCollision(entries) && Committed(store.objects, stamp, marker.value, t) ==>
              RestoredFrom(files, dest.files, entries, stamp, key, t)
    ensures store.reliable && SafeStamp(stamp) && Manifest.BackupOk(files, stamp, Some(key), t.manifests, t.prims)
            && NoCollision(entries) ==>
              restored && Committed(store.objects, stamp, marker.value, t)
  {
    restored := false;
    var published;
    published, entries, marker := PublishSet(files, stamp, store, key, createdAt, t);
    if published.Threw? {
      return;
    }
    ghost var good := NoCollision(entries) && Committed(store.objects, stamp, published.marker, t);
    if good {
      PublishedSetIsOk(store.objects, files, entries, stamp, createdAt, key, published.marker, t);
    }
    restored := FetchPublished(stamp, store, key, dest, t, entries, good);
    if restored && good {
      DownloadedIsBack(files, dest.files, entries, stamp, createdAt, key, published.marker, t);
    }
  }
}
