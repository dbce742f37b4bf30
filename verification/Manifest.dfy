/** The authenticated manifest of a sealed backup directory, and its verification. */
module Manifest {
  import opened Common
  import opened ObjectStores

  datatype Artifact = Artifact(name: string, role: string, sha256: string, bytes: int)

  datatype Body = Body(
    formatVersion: int, createdAt: string, stamp: string, encryption: string,
    artifacts: seq<Artifact>, notes: seq<string>)

  datatype BackupManifest = BackupManifest(body: Body, mac: string)

  /** JSON text of manifests, and the canonical serialization the MAC covers. */
  datatype Codec = Codec(decode: Bytes -> Parsed<BackupManifest>, canonical: Body -> string)

  function FileName(stamp: string): string {
    "manifest-" + stamp + ".json"
  }

  function Mac(body: Body, key: Bytes, codec: Codec, prims: Primitives): string {
    prims.hmac(key, codec.canonical(body))
  }

  predicate ValidArtifact(a: Artifact) {
    a.role in {"postgres", "media"} && a.bytes >= 0 && IsHex64(a.sha256)
  }

  predicate ShapeOk(m: BackupManifest) {
    && m.body.formatVersion == 1
    && m.body.encryption == "aes-256-gcm"
    && IsHex64(m.mac)
    && m.body.artifacts != []
    && (forall a :: a in m.body.artifacts ==> ValidArtifact(a))
    && (exists a :: a in m.body.artifacts && a.role == "postgres")
  }

  predicate MacOk(m: BackupManifest, key: Option<Bytes>, codec: Codec, prims: Primitives) {
    key.None? || SameDigest(Mac(m.body, key.value, codec, prims), m.mac)
  }

  predicate ArtifactOk(a: Artifact, files: Objects, key: Option<Bytes>, prims: Primitives) {
    && Matches(files, a.name, a.bytes, a.sha256, prims)
    && (key.Some? ==> prims.opens(key.value, files[a.name]))
  }

  predicate HasManifest(files: Objects, stamp: string, codec: Codec) {
    FileName(stamp) in files && codec.decode(files[FileName(stamp)]).Document?
  }

  function Read(files: Objects, stamp: string, codec: Codec): BackupManifest
    requires HasManifest(files, stamp, codec)
  {
    codec.decode(files[FileName(stamp)]).value
  }

  /** What a verified backup directory is. */
  predicate BackupOk(files: Objects, stamp: string, key: Option<Bytes>, codec: Codec, prims: Primitives) {
    && HasManifest(files, stamp, codec)
    && var m := Read(files, stamp, codec);
    && ShapeOk(m)
    && MacOk(m, key, codec, prims)
    && forall a :: a in m.body.artifacts ==> ArtifactOk(a, files, key, prims)
  }

  /** MAIN: what verification of a directory with the key vouches for, spelled out: the manifest's mac is the HMAC
      of the canonical text of its own body, its fields are the expected ones, it lists a database dump, and
      every artifact is there with the recorded size and digest and opens. */
  lemma {:induction false} BackupOkMeans(files: Objects, stamp: string, key: Bytes, codec: Codec, prims: Primitives)
    requires prims.WellFormed()
    ensures BackupOk(files, stamp, Some(key), codec, prims) <==>
            && "manifest-" + stamp + ".json" in files
            && codec.decode(files["manifest-" + stamp + ".json"]).Document?
            && var m := codec.decode(files["manifest-" + stamp + ".json"]).value;
               && m.mac == prims.hmac(key, codec.canonical(m.body))
               && m.body.formatVersion == 1 && m.body.encryption == "aes-256-gcm"
               && (exists a :: a in m.body.artifacts && a.role == "postgres")
               && (forall a :: a in m.body.artifacts ==>
                     && (a.role == "postgres" || a.role == "media")
                     && a.name in files && |files[a.name]| == a.bytes && prims.sha256(files[a.name]) == a.sha256
                     && prims.opens(key, files[a.name]))
  {
    if "manifest-" + stamp + ".json" in files && codec.decode(files["manifest-" + stamp + ".json"]).Document? {
      var m := codec.decode(files["manifest-" + stamp + ".json"]).value;
      MacOkMeans(m, key, codec, prims);
      forall a | a in m.body.artifacts
        ensures ValidArtifact(a) && ArtifactOk(a, files, Some(key), prims) <==>
                && (a.role == "postgres" || a.role == "media")
                && a.name in files && |files[a.name]| == a.bytes && prims.sha256(files[a.name]) == a.sha256
                && prims.opens(key, files[a.name])
      {
        ArtifactOkMeans(a, files, key, prims);
      }
    }
  }

  lemma {:induction false} MacOkMeans(m: BackupManifest, key: Bytes, codec: Codec, prims: Primitives)
    requires prims.WellFormed()
    ensures IsHex64(m.mac) && MacOk(m, Some(key), codec, prims) <==> m.mac == prims.hmac(key, codec.canonical(m.body))
  {
    if IsHex64(m.mac) {
      SameDigestIsEquality(prims.hmac(key, codec.canonical(m.body)), m.mac);
    }
  }

  lemma {:induction false} ArtifactOkMeans(a: Artifact, files: Objects, key: Bytes, prims: Primitives)
    requires prims.WellFormed()
    ensures ValidArtifact(a) && ArtifactOk(a, files, Some(key), prims) <==>
            && (a.role == "postgres" || a.role == "media")
            && a.name in files && |files[a.name]| == a.bytes && prims.sha256(files[a.name]) == a.sha256
            && prims.opens(key, files[a.name])
  {
    if a.name in files && IsHex64(a.sha256) {
      SameDigestIsEquality(prims.sha256(files[a.name]), a.sha256);
    }
  }

  /** A manifest that keeps its mac under another body verifies exactly if it would under that body's own mac and
      HMAC does not tell the two bodies' texts apart. */
  lemma {:induction false} AlteredManifestIff(files: Objects, altered: Objects, stamp: string, key: Bytes, body: Body,
                                              codec: Codec, prims: Primitives)
    requires prims.WellFormed() && BackupOk(files, stamp, Some(key), codec, prims)
    requires HasManifest(altered, stamp, codec)
    requires Read(altered, stamp, codec) == BackupManifest(body, Read(files, stamp, codec).mac)
    ensures BackupOk(altered, stamp, Some(key), codec, prims) <==>
            && BackupOk(altered, stamp, None, codec, prims)
            && (forall a :: a in body.artifacts ==> prims.opens(key, altered[a.name]))
            && prims.hmac(key, codec.canonical(body)) ==
               prims.hmac(key, codec.canonical(Read(files, stamp, codec).body))
  {
    MacOkMeans(Read(files, stamp, codec), key, codec, prims);
    MacOkMeans(Read(altered, stamp, codec), key, codec, prims);
    if BackupOk(altered, stamp, None, codec, prims) {
      forall a | a in body.artifacts
        ensures a.name in altered
      {
        assert ArtifactOk(a, altered, None, prims);
      }
    }
  }

  datatype FileCheck = HashOk | HashMismatch | FileMissing
  datatype SizeCheck = SizeOk | SizeMismatch | SizeUnknown
  datatype Check = Check(artifact: string, hash: FileCheck, size: SizeCheck, decrypt: Option<bool>)

  datatype VerifyResult = VerifyResult(ok: bool, shapeOk: bool, macOk: bool, checks: seq<Check>)

  /** What is reported of one artifact. */
  function CheckOf(a: Artifact, files: Objects, key: Option<Bytes>, prims: Primitives): (c: Check)
    ensures ArtifactOk(a, files, key, prims) <==> c.hash == HashOk && c.size == SizeOk && c.decrypt != Some(false)
    ensures c.artifact == a.name
    ensures (c.hash == FileMissing <==> a.name !in files) && (c.size == SizeUnknown <==> a.name !in files)
    ensures c.size == SizeOk <==> a.name in files && |files[a.name]| == a.bytes
    ensures c.hash == HashOk <==> a.name in files && SameDigest(prims.sha256(files[a.name]), a.sha256)
    ensures c.decrypt.Some? <==> key.Some? && c.hash == HashOk
    ensures c.decrypt.Some? ==> c.decrypt.value == prims.opens(key.value, files[a.name])
  {
    if a.name !in files then Check(a.name, FileMissing, SizeUnknown, None)
    else
      var matches := SameDigest(prims.sha256(files[a.name]), a.sha256);
      Check(a.name, if matches then HashOk else HashMismatch,
            if |files[a.name]| == a.bytes then SizeOk else SizeMismatch,
            if key.Some? && matches then Some(prims.opens(key.value, files[a.name])) else None)
  }

  /** The verdict is `ok` exactly for a verified directory; None when the manifest cannot be read. */
  method VerifyBackup(files: Objects, stamp: string, key: Option<Bytes>, codec: Codec, prims: Primitives)
    returns (r: Option<VerifyResult>)
    ensures r.Some? <==> HasManifest(files, stamp, codec)
    ensures r.Some? ==> (r.value.ok <==> BackupOk(files, stamp, key, codec, prims))
    ensures r.Some? ==>
              && (r.value.shapeOk <==> ShapeOk(Read(files, stamp, codec)))
              && (r.value.macOk <==> MacOk(Read(files, stamp, codec), key, codec, prims))
    ensures r.Some? ==>
              && |r.value.checks| == |Read(files, stamp, codec).body.artifacts|
              && forall i :: 0 <= i < |r.value.checks| ==>
                   r.value.checks[i] == CheckOf(Read(files, stamp, codec).body.artifacts[i], files, key, prims)
  {
    if FileName(stamp) !in files || !codec.decode(files[FileName(stamp)]).Document? {
      return None;
    }
    var m := codec.decode(files[FileName(stamp)]).value;
    var shapeOk := ShapeOk(m);
    var macOk := MacOk(m, key, codec, prims);
    var ok := shapeOk && macOk;
    var artifacts := m.body.artifacts;
    var checks: seq<Check> := [];
    for i := 0 to |artifacts|
      invariant ok <==> shapeOk && macOk && forall j :: 0 <= j < i ==> ArtifactOk(artifacts[j], files, key, prims)
      invariant |checks| == i && forall j :: 0 <= j < i ==> checks[j] == CheckOf(artifacts[j], files, key, prims)
    {
      var a := artifacts[i];
      var hash, size := FileMissing, SizeUnknown;
      if a.name in files {
        size := if |files[a.name]| == a.bytes then SizeOk else SizeMismatch;
        hash := if SameDigest(prims.sha256(files[a.name]), a.sha256) then HashOk else HashMismatch;
      }
      if hash != HashOk || size != SizeOk {
        ok := false;
      }
      var decrypt := None;
      if key.Some? && hash == HashOk {
        decrypt := Some(prims.opens(key.value, files[a.name]));
        if decrypt == Some(false) {
          ok := false;
        }
      }
      checks := checks + [Check(a.name, hash, size, decrypt)];
    }
    return Some(VerifyResult(ok, shapeOk, macOk, checks));
  }
}
