/** Object storage as the backup and media code sees it: a map from keys to bytes behind calls that
    may throw and writes that may be corrupted, and the digests that detect it. */
module ObjectStores {
  type Byte = b: int | 0 <= b < 256
  type Bytes = seq<Byte>
  type Objects = map<string, Bytes>

  datatype Fetched = Missing | Found(data: Bytes) | Unreadable

  class Store {
    var objects: Objects
    /** Whether a write that lands stores what it was given. */
    const faithful: bool
    /** Whether every call returns and every write is stored as given. */
    const reliable: bool
    /** Every state the store has been in: what a process that dies at any step leaves behind. */
    ghost var trail: seq<Objects>

    constructor (objects: Objects, faithful: bool, reliable: bool)
      ensures this.objects == objects && trail == [objects] && this.faithful == faithful && this.reliable == reliable
    {
      this.objects, trail, this.faithful, this.reliable := objects, [objects], faithful, reliable;
    }

    /** A read returns the stored bytes, reports that there are none, or throws. */
    method Get(key: string) returns (r: Fetched)
      ensures r.Found? ==> key in objects && r.data == objects[key]
      ensures r.Missing? ==> key !in objects
      ensures reliable ==> !r.Unreadable?
    {
      var fails: bool := *;
      if fails && !reliable {
        return Unreadable;
      }
      return if key in objects then Found(objects[key]) else Missing;
    }

    /** A write that returns normally stores something under the key, not necessarily the data unless the
        store is faithful; a write that throws may or may not have done so. */
    method Put(key: string, data: Bytes) returns (ok: bool)
      modifies this
      ensures trail == old(trail) + [objects]
      ensures Touched(old(objects), objects, {key})
      ensures ok ==> key in objects
      ensures faithful ==> objects == old(objects)[key := data] || (!ok && objects == old(objects))
      ensures reliable ==> ok && objects == old(objects)[key := data]
    {
      var landed: bool, stored: Bytes := *, *;
      ok := *;
      ok := ok || reliable;
      if faithful || reliable {
        stored := data;
      }
      if ok || landed {
        objects := objects[key := stored];
      }
      trail := trail + [objects];
    }
  }

  /** The two states agree on every key outside `keys`, and no key was removed. */
  ghost predicate Touched(before: Objects, after: Objects, keys: set<string>) {
    && before.Keys <= after.Keys <= before.Keys + keys
    && forall k :: k in before && k !in keys ==> after[k] == before[k]
  }

  // ---------------------------------------------------------------- digests

  predicate IsHexDigit(c: char) {
    '0' <= c <= '9' || 'a' <= c <= 'f'
  }

  /** `/^[0-9a-f]{64}$/` */
  predicate IsHex64(s: string) {
    |s| == 64 && forall i :: 0 <= i < |s| ==> IsHexDigit(s[i])
  }

  const HEX := "0123456789abcdef"

  function Nibble(c: char): (n: int)
    ensures n == -1 || 0 <= n < 16
  {
    if '0' <= c <= '9' then c as int - '0' as int
    else if 'a' <= c <= 'f' then c as int - 'a' as int + 10
    else if 'A' <= c <= 'F' then c as int - 'A' as int + 10
    else -1
  }

  /** `Buffer.from(s, "hex")`: whole pairs of hex digits, up to the first pair that is not. */
  function Unhex(s: string): Bytes {
    if |s| < 2 || Nibble(s[0]) == -1 || Nibble(s[1]) == -1 then []
    else [Nibble(s[0]) * 16 + Nibble(s[1])] + Unhex(s[2..])
  }

  /** The constant-time comparison of two hex digests. */
  predicate SameDigest(a: string, b: string) {
    Unhex(a) == Unhex(b)
  }

  lemma {:induction false} UnhexInjective(a: string, b: string)
    requires |a| == |b| && |a| % 2 == 0
    requires forall i :: 0 <= i < |a| ==> IsHexDigit(a[i]) && IsHexDigit(b[i])
    requires Unhex(a) == Unhex(b)
    ensures a == b
  {
    if |a| >= 2 {
      assert Unhex(a)[0] == Unhex(b)[0];
      assert Unhex(a)[1..] == Unhex(a[2..]) && Unhex(b)[1..] == Unhex(b[2..]);
      NibbleInjective(a[0], a[1], b[0], b[1]);
      UnhexInjective(a[2..], b[2..]);
      assert a == a[..2] + a[2..] && b == b[..2] + b[2..];
    }
  }

  lemma {:induction false} NibbleInjective(a: char, a': char, b: char, b': char)
    requires IsHexDigit(a) && IsHexDigit(a') && IsHexDigit(b) && IsHexDigit(b')
    requires Nibble(a) * 16 + Nibble(a') == Nibble(b) * 16 + Nibble(b')
    ensures a == b && a' == b'
  {}

  /** On well-formed SHA-256 digests, the comparison is equality. */
  lemma {:induction false} SameDigestIsEquality(a: string, b: string)
    requires IsHex64(a) && IsHex64(b)
    ensures SameDigest(a, b) <==> a == b
  {
    if SameDigest(a, b) {
      UnhexInjective(a, b);
    }
  }

  /** SHA-256 and HMAC-SHA-256 (RFC 2104), as hex strings, and authenticated decryption. */
  datatype Primitives = Primitives(
    sha256: Bytes -> string,
    hmac: (Bytes, string) -> string,
    opens: (Bytes, Bytes) -> bool)
  {
    /** Digests are 64 lower-case hex digits. */
    ghost predicate WellFormed() {
      && (forall data :: IsHex64(sha256(data)))
      && (forall key, text :: IsHex64(hmac(key, text)))
    }

    /** No two of these byte strings share a SHA-256 digest. (No digest of fixed length could say as much of
        all byte strings.) */
    ghost predicate CollisionFreeOn(seen: set<Bytes>) {
      forall a, b :: a in seen && b in seen && sha256(a) == sha256(b) ==> a == b
    }
  }

  function PositionOf(items: seq<Bytes>, x: Bytes): (i: nat)
    ensures i <= |items| && (i < |items| ==> items[i] == x) && (x in items ==> i < |items|)
  {
    if items == [] || items[0] == x then 0 else 1 + PositionOf(items[1..], x)
  }

  function Pow16(n: nat): (p: nat)
    ensures p >= 1
  {
    if n == 0 then 1 else 16 * Pow16(n - 1)
  }

  /** The last n hex digits of p. */
  function HexOf(p: nat, n: nat): (s: string)
    ensures |s| == n && forall i :: 0 <= i < n ==> IsHexDigit(s[i])
  {
    if n == 0 then "" else HexOf(p / 16, n - 1) + [HEX[p % 16]]
  }

  lemma {:induction false} HexOfInjective(p: nat, q: nat, n: nat)
    requires p < Pow16(n) && q < Pow16(n) && HexOf(p, n) == HexOf(q, n)
    ensures p == q
  {
    if n > 0 {
      HexOfParts(p, n);
      HexOfParts(q, n);
      HexOfInjective(p / 16, q / 16, n - 1);
      HexInjective(p % 16, q % 16);
    }
  }

  lemma {:induction false} HexOfParts(p: nat, n: nat)
    requires n > 0
    ensures HexOf(p, n)[..n - 1] == HexOf(p / 16, n - 1) && HexOf(p, n)[n - 1] == HEX[p % 16]
  {}

  lemma {:induction false} HexInjective(i: nat, j: nat)
    requires i < 16 && j < 16 && HEX[i] == HEX[j]
    ensures i == j
  {
    assert forall k, l :: 0 <= k < l < 16 ==> HEX[k] != HEX[l];
  }

  /** The hypotheses can be met: for any byte strings, as many as there are 64-digit digests, there are
      well-formed primitives that tell them apart. */
  lemma {:induction false} PrimitivesExist(items: seq<Bytes>) returns (p: Primitives)
    requires |items| <= Pow16(64)
    ensures p.WellFormed() && p.CollisionFreeOn(set x | x in items)
  {
    var sha256, hmac := (x: Bytes) => HexOf(PositionOf(items, x), 64), (key: Bytes, text: string) => HexOf(0, 64);
    p := Primitives(sha256, hmac, (key, box) => true);
    forall a, b | a in items && b in items && p.sha256(a) == p.sha256(b)
      ensures a == b
    {
      HexOfInjective(PositionOf(items, a), PositionOf(items, b), 64);
    }
  }

  /** The result of parsing stored JSON text as a document of a known shape. */
  datatype Parsed<+T> = NotJson | IllTyped | Document(value: T)

  /** The stored object has the recorded size and digest. */
  predicate Matches(objects: Objects, key: string, bytes: int, digest: string, prims: Primitives) {
    key in objects && |objects[key]| == bytes && SameDigest(prims.sha256(objects[key]), digest)
  }
}
