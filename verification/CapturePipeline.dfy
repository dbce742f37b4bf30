/** From a captured payload to what is persisted: visual redaction of every inline image in whatever
    order the tree walk meets them, extraction, and the media service. */
module CapturePipeline {
  import opened Common
  import opened ObjectStores
  import opened PayloadTrees
  import opened MediaService

  const MAX_IMAGES_PER_PAYLOAD := 6

  /** What redacting one image comes to: a certified result (the image itself when nothing had to be
      masked, else a re-encoded one), too low a resolution, an OCR or decoding error, or another exception. */
  datatype Analysis =
    | Certified(masked: nat, png: bool, base64: string, safeText: string)
    | InsufficientResolution
    | RedactionError
    | OtherError

  function OutUrl(url: string, a: Analysis): string
    requires a.Certified?
  {
    if a.masked == 0 then url
    else (if a.png then "data:image/png;base64," else "data:image/jpeg;base64,") + a.base64
  }

  /** The OCR engine seen as what it makes of the payload's i-th image; None when redaction is off. */
  type Ocr = Option<nat -> Analysis>

  /** Some of the first n images made OCR or decoding fail; some were too small to certify. */
  predicate SomeError(ocr: nat -> Analysis, n: nat) {
    exists i :: 0 <= i < n && ocr(i).RedactionError?
  }

  predicate SomeInsufficient(ocr: nat -> Analysis, n: nat) {
    exists i :: 0 <= i < n && ocr(i).InsufficientResolution?
  }

  predicate AllCertified(ocr: nat -> Analysis, n: nat) {
    forall i :: 0 <= i < n ==> ocr(i).Certified?
  }

  // ---------------------------------------------------------------- rebuilding the tree

  /** The tree with its images, in traversal order, replaced by `outs`. */
  function Replace(v: Json, outs: seq<string>): Json
    requires |outs| == |Images(v)|
    decreases v, 0
  {
    match v
    case Str(s) => if IsImageUrl(s) then Str(outs[0]) else v
    case Arr(items) => Arr(ReplaceItems(items, outs))
    case Obj(fields) => Obj(ReplaceFields(fields, outs))
    case _ => v
  }

  function ReplaceItems(items: seq<Json>, outs: seq<string>): seq<Json>
    requires |outs| == |ItemImages(items)|
    decreases items, 0
  {
    if items == [] then []
    else
      var n := |ItemImages(items[..|items| - 1])|;
      ReplaceItems(items[..|items| - 1], outs[..n]) + [Replace(items[|items| - 1], outs[n..])]
  }

  function ReplaceFields(fields: seq<Field>, outs: seq<string>): seq<Field>
    requires |outs| == |FieldImages(fields)|
    decreases fields, 0
  {
    if fields == [] then []
    else
      var last := fields[|fields| - 1];
      var n := |FieldImages(fields[..|fields| - 1])|;
      ReplaceFields(fields[..|fields| - 1], outs[..n])
      + if last.key == PROTO then [] else [Field(last.key, Replace(last.value, outs[n..]))]
  }

  /** Every image of the rebuilt tree is one of the replacements. */
  lemma {:induction false} ReplaceImages(v: Json, outs: seq<string>)
    requires |outs| == |Images(v)|
    ensures |Images(Replace(v, outs))| <= |outs| && forall u :: u in Images(Replace(v, outs)) ==> u in outs
    decreases v, 0
  {
    match v
    case Arr(items) => ReplaceItemImages(items, outs);
    case Obj(fields) => ReplaceFieldImages(fields, outs);
    case _ =>
  }

  lemma {:induction false} ReplaceItemImages(items: seq<Json>, outs: seq<string>)
    requires |outs| == |ItemImages(items)|
    ensures |ItemImages(ReplaceItems(items, outs))| <= |outs|
    ensures forall u :: u in ItemImages(ReplaceItems(items, outs)) ==> u in outs
    decreases items, 0
  {
    if items != [] {
      var n := |ItemImages(items[..|items| - 1])|;
      ReplaceItemImages(items[..|items| - 1], outs[..n]);
      ReplaceImages(items[|items| - 1], outs[n..]);
      var rest := ReplaceItems(items[..|items| - 1], outs[..n]);
      assert ReplaceItems(items, outs)[..|rest|] == rest;
    }
  }

  lemma {:induction false} ReplaceFieldImages(fields: seq<Field>, outs: seq<string>)
    requires |outs| == |FieldImages(fields)|
    ensures |FieldImages(ReplaceFields(fields, outs))| <= |outs|
    ensures forall u :: u in FieldImages(ReplaceFields(fields, outs)) ==> u in outs
    decreases fields, 0
  {
    if fields != [] {
      var n := |FieldImages(fields[..|fields| - 1])|;
      ReplaceFieldImages(fields[..|fields| - 1], outs[..n]);
      var rest := ReplaceFields(fields[..|fields| - 1], outs[..n]);
      if fields[|fields| - 1].key == PROTO {
        assert ReplaceFields(fields, outs) == rest;
      } else {
        ReplaceImages(fields[|fields| - 1].value, outs[n..]);
        assert ReplaceFields(fields, outs)[..|rest|] == rest;
      }
    }
  }

  /** No prototype key at any depth. */
  predicate NoProto(v: Json)
    decreases v, 0
  {
    match v
    case Arr(items) => forall i :: 0 <= i < |items| ==> NoProto(items[i])
    case Obj(fields) => forall i :: 0 <= i < |fields| ==> NoProtoField(fields[i])
    case _ => true
  }

  predicate NoProtoField(f: Field)
    decreases f, 1
  {
    f.key != PROTO && NoProto(f.value)
  }

  /** Without prototype keys, which the rebuilt objects drop, each image stands where the one it replaces stood. */
  lemma {:induction false} ReplaceInOrder(v: Json, outs: seq<string>)
    requires |outs| == |Images(v)| && NoProto(v) && forall u :: u in outs ==> IsImageUrl(u)
    ensures Images(Replace(v, outs)) == outs
    decreases v, 0
  {
    match v
    case Str(s) =>
      if IsImageUrl(s) {
        assert outs[0] in outs;
      }
    case Arr(items) => ReplaceItemsInOrder(items, outs);
    case Obj(fields) => ReplaceFieldsInOrder(fields, outs);
    case _ =>
  }

  lemma {:induction false} ItemImagesOneMore(items: seq<Json>, v: Json)
    ensures ItemImages(items + [v]) == ItemImages(items) + Images(v)
  {
    var more := items + [v];
    assert more[..|more| - 1] == items && more[|more| - 1] == v;
  }

  lemma {:induction false} FieldImagesOneMore(fields: seq<Field>, key: string, v: Json)
    ensures FieldImages(fields + [Field(key, v)]) == FieldImages(fields) + Images(v)
  {
    var more := fields + [Field(key, v)];
    assert more[..|more| - 1] == fields && more[|more| - 1].value == v;
  }

  lemma {:induction false} ReplaceItemsInOrder(items: seq<Json>, outs: seq<string>)
    requires |outs| == |ItemImages(items)| && forall u :: u in outs ==> IsImageUrl(u)
    requires forall i :: 0 <= i < |items| ==> NoProto(items[i])
    ensures ItemImages(ReplaceItems(items, outs)) == outs
    decreases items, 0
  {
    if items != [] {
      var n := |ItemImages(items[..|items| - 1])|;
      ReplaceItemsInOrder(items[..|items| - 1], outs[..n]);
      ReplaceInOrder(items[|items| - 1], outs[n..]);
      ItemImagesOneMore(ReplaceItems(items[..|items| - 1], outs[..n]), Replace(items[|items| - 1], outs[n..]));
      assert outs[..n] + outs[n..] == outs;
    }
  }

  lemma {:induction false} ReplaceFieldsOneMore(fields: seq<Field>, outs: seq<string>)
    requires |outs| == |FieldImages(fields)| && fields != [] && fields[|fields| - 1].key != PROTO
    ensures var n := |FieldImages(fields[..|fields| - 1])|;
            FieldImages(ReplaceFields(fields, outs)) ==
            FieldImages(ReplaceFields(fields[..|fields| - 1], outs[..n]))
            + Images(Replace(fields[|fields| - 1].value, outs[n..]))
  {
    var last, n := fields[|fields| - 1], |FieldImages(fields[..|fields| - 1])|;
    FieldImagesOneMore(ReplaceFields(fields[..|fields| - 1], outs[..n]), last.key, Replace(last.value, outs[n..]));
  }

  lemma {:induction false} ReplaceFieldsInOrder(fields: seq<Field>, outs: seq<string>)
    requires |outs| == |FieldImages(fields)| && forall u :: u in outs ==> IsImageUrl(u)
    requires forall i :: 0 <= i < |fields| ==> NoProtoField(fields[i])
    ensures FieldImages(ReplaceFields(fields, outs)) == outs
    decreases fields, 0
  {
    if fields != [] {
      var last := fields[|fields| - 1];
      assert NoProtoField(last);
      var n := |FieldImages(fields[..|fields| - 1])|;
      ReplaceFieldsInOrder(fields[..|fields| - 1], outs[..n]);
      ReplaceInOrder(last.value, outs[n..]);
      ReplaceFieldsOneMore(fields, outs);
      assert outs[..n] + outs[n..] == outs;
    }
  }

  /** Putting images in the place of images changes nothing else. */
  lemma {:induction false} ReplaceKeepsTheRest(v: Json, outs: seq<string>)
    requires |outs| == |Images(v)| && forall u :: u in outs ==> IsImageUrl(u)
    ensures Clean(Replace(v, outs), false) == Clean(v, false)
    decreases v, 0
  {
    match v
    case Str(s) =>
      if IsImageUrl(s) {
        assert outs[0] in outs;
      }
    case Arr(items) => ReplaceItemsKeepsTheRest(items, outs);
    case Obj(fields) => ReplaceFieldsKeepsTheRest(fields, outs);
    case _ =>
  }

  lemma {:induction false} ReplaceItemsKeepsTheRest(items: seq<Json>, outs: seq<string>)
    requires |outs| == |ItemImages(items)| && forall u :: u in outs ==> IsImageUrl(u)
    ensures CleanItems(ReplaceItems(items, outs), false) == CleanItems(items, false)
    decreases items, 0
  {
    if items != [] {
      var n := |ItemImages(items[..|items| - 1])|;
      ReplaceItemsKeepsTheRest(items[..|items| - 1], outs[..n]);
      ReplaceKeepsTheRest(items[|items| - 1], outs[n..]);
      var rest := ReplaceItems(items[..|items| - 1], outs[..n]);
      assert ReplaceItems(items, outs)[..|rest|] == rest;
    }
  }

  lemma {:induction false} ReplaceFieldsKeepsTheRest(fields: seq<Field>, outs: seq<string>)
    requires |outs| == |FieldImages(fields)| && forall u :: u in outs ==> IsImageUrl(u)
    ensures CleanFields(ReplaceFields(fields, outs), false) == CleanFields(fields, false)
    decreases fields, 0
  {
    if fields != [] {
      var last := fields[|fields| - 1];
      var n := |FieldImages(fields[..|fields| - 1])|;
      ReplaceFieldsKeepsTheRest(fields[..|fields| - 1], outs[..n]);
      var rest := ReplaceFields(fields[..|fields| - 1], outs[..n]);
      if last.key == PROTO {
        assert ReplaceFields(fields, outs) == rest;
      } else {
        ReplaceKeepsTheRest(last.value, outs[n..]);
        assert ReplaceFields(fields, outs)[..|rest|] == rest;
      }
    }
  }

  lemma {:induction false} ImagesAreImageUrls(v: Json)
    ensures forall u :: u in Images(v) ==> IsImageUrl(u)
    decreases v, 0
  {
    match v
    case Arr(items) => ItemImagesAreImageUrls(items);
    case Obj(fields) => FieldImagesAreImageUrls(fields);
    case _ =>
  }

  lemma {:induction false} ItemImagesAreImageUrls(items: seq<Json>)
    ensures forall u :: u in ItemImages(items) ==> IsImageUrl(u)
    decreases items, 0
  {
    if items != [] {
      ItemImagesAreImageUrls(items[..|items| - 1]);
      ImagesAreImageUrls(items[|items| - 1]);
    }
  }

  lemma {:induction false} FieldImagesAreImageUrls(fields: seq<Field>)
    ensures forall u :: u in FieldImages(fields) ==> IsImageUrl(u)
    decreases fields, 0
  {
    if fields != [] {
      FieldImagesAreImageUrls(fields[..|fields| - 1]);
      ImagesAreImageUrls(fields[|fields| - 1].value);
    }
  }

  lemma {:induction false} OutUrlIsImage(url: string, a: Analysis)
    requires IsImageUrl(url) && a.Certified?
    ensures IsImageUrl(OutUrl(url, a))
  {
    if a.masked != 0 {
      assert OutUrl(url, a)[..|IMAGE_SCHEME|] == IMAGE_SCHEME;
      assert Lower(IMAGE_SCHEME) == IMAGE_SCHEME;
    }
  }

  // ---------------------------------------------------------------- redaction

  /** What the walk may have made of the images: left as they were, or their own certified result. */
  predicate Processed(images: seq<string>, outs: seq<string>, ocr: Ocr) {
    && |outs| == |images|
    && forall i :: 0 <= i < |images| ==>
         outs[i] == images[i] || (ocr.Some? && ocr.value(i).Certified? && outs[i] == OutUrl(images[i], ocr.value(i)))
  }

  predicate AllRedacted(images: seq<string>, outs: seq<string>, ocr: Ocr) {
    && |outs| == |images| && ocr.Some?
    && forall i :: 0 <= i < |images| ==> ocr.value(i).Certified? && outs[i] == OutUrl(images[i], ocr.value(i))
  }

  function UpTo(n: nat): set<nat> {
    if n == 0 then {} else UpTo(n - 1) + {n - 1}
  }

  lemma {:induction false} UpToIsAll(n: nat)
    ensures |UpTo(n)| == n
    ensures forall i: nat :: i in UpTo(n) <==> i < n
  {
    if n > 0 {
      UpToIsAll(n - 1);
    }
  }

  datatype WalkResult = WalkResult(threw: bool, outs: seq<string>, failed: bool, uncertified: bool, texts: seq<string>)

  /** The text is the safe text of one of the images. */
  ghost predicate IsSafeText(text: string, images: seq<string>, ocr: Ocr) {
    ocr.Some? && exists i :: 0 <= i < |images| && ocr.value(i).Certified? && ocr.value(i).safeText == text
  }

  /** What the result makes of image i, which the walk has reached. */
  predicate Reached(images: seq<string>, i: nat, ocr: nat -> Analysis, w: WalkResult)
    requires i < |images| == |w.outs|
  {
    match ocr(i)
    case Certified(_, _, _, safeText) =>
      w.failed || (w.outs[i] == OutUrl(images[i], ocr(i)) && (safeText != "" ==> safeText in w.texts))
    case InsufficientResolution => w.uncertified || |images| > MAX_IMAGES_PER_PAYLOAD
    case _ => w.failed
  }

  /** The walk has reached all images but the pending ones. */
  ghost predicate Walked(images: seq<string>, pending: set<nat>, ocr: Ocr, w: WalkResult) {
    && Processed(images, w.outs, ocr)
    && (forall s :: s in w.texts ==> IsSafeText(s, images, ocr))
    && (ocr.Some? ==>
          && (w.failed ==> |images| > MAX_IMAGES_PER_PAYLOAD || SomeError(ocr.value, |images|))
          && (w.uncertified ==> SomeInsufficient(ocr.value, |images|))
          && (|images| - |pending| > MAX_IMAGES_PER_PAYLOAD ==> w.failed)
          && forall i :: 0 <= i < |images| && i !in pending ==> Reached(images, i, ocr.value, w))
  }

  /** One image, as the `seen`-th. */
  method VisitImage(images: seq<string>, i: nat, seen: nat, ocr: Ocr, w: WalkResult, ghost pending: set<nat>)
    returns (w': WalkResult)
    requires i in pending && i < |images| && seen == |images| - |pending| + 1 && Walked(images, pending, ocr, w)
    ensures !w'.threw ==> Walked(images, pending - {i}, ocr, w')
    ensures w'.threw ==> w.threw || (ocr.Some? && ocr.value(i).OtherError?)
  {
    w' := w;
    if seen > MAX_IMAGES_PER_PAYLOAD {
      w' := w.(failed := true);
    } else if ocr.Some? {
      match ocr.value(i) {
        case Certified(masked, png, base64, safeText) =>
          w' := w.(outs := w.outs[i := OutUrl(images[i], ocr.value(i))],
                   texts := if safeText != "" then w.texts + [safeText] else w.texts);
        case InsufficientResolution =>
          w' := w.(uncertified := true);
        case RedactionError =>
          w' := w.(failed := true);
        case OtherError =>
          w' := w.(threw := true);
      }
    }
  }

  /** The async walk: parallel array elements may reach their images in any order, and only the order of
      the shared counter decides which ones are over the budget. */
  method WalkImages(images: seq<string>, ocr: Ocr) returns (r: WalkResult)
    ensures !r.threw ==> Processed(images, r.outs, ocr)
    ensures !r.threw && ocr.Some? && !r.failed && !r.uncertified ==>
              && |images| <= MAX_IMAGES_PER_PAYLOAD && AllRedacted(images, r.outs, ocr)
              && forall i :: 0 <= i < |images| && ocr.value(i).safeText != "" ==> ocr.value(i).safeText in r.texts
    ensures r.threw ==> ocr.Some? && exists i :: 0 <= i < |images| && ocr.value(i).OtherError?
    ensures !r.threw && ocr.Some? && (r.failed || r.uncertified) ==>
              |images| > MAX_IMAGES_PER_PAYLOAD || !AllCertified(ocr.value, |images|)
    ensures !r.threw && ocr.Some? ==>
              && (r.failed <==> |images| > MAX_IMAGES_PER_PAYLOAD || SomeError(ocr.value, |images|))
              && (|images| <= MAX_IMAGES_PER_PAYLOAD ==> (r.uncertified <==> SomeInsufficient(ocr.value, |images|)))
    ensures !r.threw ==> forall s :: s in r.texts ==> IsSafeText(s, images, ocr)
  {
    r := WalkResult(false, images, false, false, []);
    var seen, pending := 0, UpTo(|images|);
    UpToIsAll(|images|);
    while pending != {}
      invariant !r.threw && Walked(images, pending, ocr, r)
      invariant seen + |pending| == |images| && forall i :: i in pending ==> i < |images|
      decreases pending
    {
      var i :| i in pending;
      seen := seen + 1;
      r := VisitImage(images, i, seen, ocr, r, pending);
      if r.threw {
        return;
      }
      pending := pending - {i};
    }
    WalkedAll(images, ocr, r);
  }

  lemma {:induction false} WalkedAll(images: seq<string>, ocr: Ocr, w: WalkResult)
    requires Walked(images, {}, ocr, w)
    ensures ocr.Some? ==>
              && (w.failed <==> |images| > MAX_IMAGES_PER_PAYLOAD || SomeError(ocr.value, |images|))
              && (|images| <= MAX_IMAGES_PER_PAYLOAD ==> (w.uncertified <==> SomeInsufficient(ocr.value, |images|)))
              && (w.failed || w.uncertified ==>
                    |images| > MAX_IMAGES_PER_PAYLOAD || !AllCertified(ocr.value, |images|))
    ensures ocr.Some? && !w.failed && !w.uncertified ==>
              && |images| <= MAX_IMAGES_PER_PAYLOAD && AllRedacted(images, w.outs, ocr)
              && forall i :: 0 <= i < |images| && ocr.value(i).safeText != "" ==> ocr.value(i).safeText in w.texts
  {
    if ocr.Some? {
      forall i | 0 <= i < |images|
        ensures ocr.value(i).RedactionError? || ocr.value(i).OtherError? ==> w.failed
        ensures ocr.value(i).InsufficientResolution? ==> w.uncertified || |images| > MAX_IMAGES_PER_PAYLOAD
        ensures ocr.value(i).Certified? && !w.failed ==>
                  && w.outs[i] == OutUrl(images[i], ocr.value(i))
                  && (ocr.value(i).safeText != "" ==> ocr.value(i).safeText in w.texts)
      {
        assert Reached(images, i, ocr.value, w);
      }
    }
  }

  /** Whatever the walk did to the images, the rest of the tree is untouched. */
  lemma {:induction false} ProcessedKeepsTheRest(payload: Json, outs: seq<string>, ocr: Ocr)
    requires Processed(Images(payload), outs, ocr)
    ensures Clean(Replace(payload, outs), false) == Clean(payload, false)
  {
    ImagesAreImageUrls(payload);
    var images := Images(payload);
    forall i | 0 <= i < |outs|
      ensures IsImageUrl(outs[i])
    {
      assert images[i] in images;
      if outs[i] != images[i] {
        OutUrlIsImage(images[i], ocr.value(i));
      }
    }
    ReplaceKeepsTheRest(payload, outs);
  }

  /** Each image of the tree replaced by its certified result. */
  ghost predicate RedactedTo(payload: Json, next: Json, ocr: Ocr) {
    exists outs :: AllRedacted(Images(payload), outs, ocr) && next == Replace(payload, outs)
  }

  datatype Redacted = Redacted(threw: bool, payload: Option<Json>, state: State, texts: seq<string>)

  /** `redactPayloadImages`. The state is 'applied' exactly when storage and OCR are on and there are one
      to six images, all certified; and then every image of the tree is its certified result. */
  method RedactPayloadImages(payload: Json, ocr: Ocr, strict: bool, storageEnabled: bool) returns (r: Redacted)
    ensures !r.threw ==>
              (r.state == Applied <==>
               storageEnabled && ocr.Some? && 1 <= |Images(payload)| <= MAX_IMAGES_PER_PAYLOAD
               && AllCertified(ocr.value, |Images(payload)|))
    ensures !r.threw && r.state == Applied ==>
              && r.payload.Some? && RedactedTo(payload, r.payload.value, ocr)
              && forall i :: 0 <= i < |Images(payload)| && ocr.value(i).Certified? && ocr.value(i).safeText != "" ==>
                   ocr.value(i).safeText in r.texts
    ensures !r.threw ==>
              && (r.state == NoImages <==> Images(payload) == [])
              && (r.state == StorageDisabled <==> Images(payload) != [] && !storageEnabled)
              && (r.state == NotScanned <==> Images(payload) != [] && storageEnabled && ocr.None?)
              && (r.state == BlockedStrict <==>
                  Images(payload) != [] && storageEnabled && ocr.Some? && strict
                  && (|Images(payload)| > MAX_IMAGES_PER_PAYLOAD || !AllCertified(ocr.value, |Images(payload)|)))
    ensures !r.threw ==>
              && (r.state == RedactionFailed <==>
                  Images(payload) != [] && storageEnabled && ocr.Some? && !strict
                  && (|Images(payload)| > MAX_IMAGES_PER_PAYLOAD || SomeError(ocr.value, |Images(payload)|)))
              && (r.state == CoverageInsufficient <==>
                  Images(payload) != [] && storageEnabled && ocr.Some? && !strict
                  && |Images(payload)| <= MAX_IMAGES_PER_PAYLOAD && !SomeError(ocr.value, |Images(payload)|)
                  && SomeInsufficient(ocr.value, |Images(payload)|))
    ensures !r.threw && r.state == NoImages && r.payload.Some? ==> Images(r.payload.value) == []
    ensures r.threw ==>
              storageEnabled && ocr.Some? && exists i :: 0 <= i < |Images(payload)| && ocr.value(i).OtherError?
    ensures !r.threw && (r.state == BlockedStrict || r.state == StorageDisabled) && r.payload.Some? ==>
              Images(r.payload.value) == []
    ensures !r.threw && strict ==> r.state != RedactionFailed && r.state != CoverageInsufficient
    ensures r.state != MediaUnavailable
    ensures !r.threw ==> (if r.payload.Some? then Clean(r.payload.value, false) else None) == Clean(payload, false)
    ensures !r.threw ==> forall s :: s in r.texts ==> IsSafeText(s, Images(payload), ocr)
  {
    var images := Images(payload);
    if !storageEnabled {
      var value, stripped := StripImages(payload, 0);
      CleanedHasNoImages(payload);
      CleanTwice(payload);
      return Redacted(false, value, if stripped > 0 then StorageDisabled else NoImages, []);
    }
    var w := WalkImages(images, ocr);
    if w.threw {
      return Redacted(true, None, NoImages, []);
    }
    var next := Replace(payload, w.outs);
    ReplaceImages(payload, w.outs);
    ProcessedKeepsTheRest(payload, w.outs, ocr);
    if |images| == 0 {
      NothingIn(Images(next), w.outs);
      return Redacted(false, Some(next), NoImages, w.texts);
    }
    if ocr.None? {
      return Redacted(false, Some(next), NotScanned, w.texts);
    }
    if w.failed || w.uncertified {
      if strict {
        var value, stripped := StripImages(next, 0);
        CleanedHasNoImages(next);
        CleanTwice(next);
        return Redacted(false, value, BlockedStrict, w.texts);
      }
      return Redacted(false, Some(next), if w.failed then RedactionFailed else CoverageInsufficient, w.texts);
    }
    return Redacted(false, Some(next), Applied, w.texts);
  }

  lemma {:induction false} CleanedHasNoImages(v: Json)
    ensures Clean(v, false).Some? ==> Images(Clean(v, false).value) == []
  {
    if Clean(v, false).Some? {
      CleanIsClean(v, false);
      CleanHasNoImages(Clean(v, false).value, false);
    }
  }

  lemma {:induction false} CleanTwice(v: Json)
    ensures Clean(v, false).Some? ==> Clean(Clean(v, false).value, false) == Clean(v, false)
  {
    if Clean(v, false).Some? {
      CleanIsIdempotent(v, false);
    }
  }

  lemma {:induction false} NothingIn(s: seq<string>, t: seq<string>)
    requires forall u :: u in s ==> u in t
    ensures s != [] ==> t != []
  {
    if s != [] {
      assert s[0] in t;
    }
  }

  // ---------------------------------------------------------------- capture

  /** What a request is about to persist. */
  datatype Prepared = Prepared(threw: bool, persisted: Option<Json>, images: seq<Image>, state: State)

  /** The certified result of one of the payload's images. */
  ghost predicate CertifiedResult(url: string, payload: Json, ocr: Ocr) {
    exists i :: 0 <= i < |Images(payload)| && ocr.Some? && ocr.value(i).Certified?
                && url == OutUrl(Images(payload)[i], ocr.value(i))
  }

  predicate CanApply(payload: Json, ocr: Ocr, storageOn: bool) {
    && storageOn && ocr.Some? && 1 <= |Images(payload)| <= MAX_IMAGES_PER_PAYLOAD
    && AllCertified(ocr.value, |Images(payload)|)
  }

  /** Extraction: the payload without its images, and the images. */
  method Extract(payload: Option<Json>) returns (persisted: Option<Json>, images: seq<Image>)
    ensures persisted == if payload.Some? then Clean(payload.value, false) else None
    ensures Urls(images) == if payload.Some? then Images(payload.value) else []
  {
    persisted, images := None, [];
    if payload.Some? {
      persisted, images := ExtractPayloadImages(payload.value, None, []);
      ExtractedAreTheImages(payload.value, None);
    }
  }

  /** The images are what the payload holds once redaction has been applied to it. */
  ghost predicate AppliedTo(payload: Json, ocr: Ocr, images: seq<Image>) {
    exists next :: RedactedTo(payload, next, ocr) && Urls(images) == Images(next)
  }

  lemma {:induction false} PersistedIsClean(payload: Json, persisted: Option<Json>)
    requires persisted == Clean(payload, false)
    ensures persisted.Some? ==> Images(persisted.value) == [] && IsClean(persisted.value, false)
  {
    CleanedHasNoImages(payload);
    if persisted.Some? {
      CleanIsClean(payload, false);
    }
  }

  /** Redaction, then extraction. The persisted payload is the captured one without its images; the images
      handed over in a safe state are the certified results, and without a media service there are none. */
  method Prepare(payload: Json, ocr: Ocr, strictRequested: bool, isProduction: bool, storageOn: bool,
                 mediaAvailable: bool)
    returns (r: Prepared)
    ensures r.threw ==> ocr.Some? && exists i :: 0 <= i < |Images(payload)| && ocr.value(i).OtherError?
    ensures !r.threw ==> r.persisted == Clean(payload, false)
    ensures r.threw || !mediaAvailable ==> r.images == []
    ensures r.state == MediaUnavailable ==> !mediaAvailable
    ensures r.images != [] && SafeState(r.state) ==> r.state == Applied
    ensures !r.threw && r.state == Applied ==> CanApply(payload, ocr, storageOn) && AppliedTo(payload, ocr, r.images)
    ensures !r.threw && mediaAvailable ==> (r.state == Applied <==> CanApply(payload, ocr, storageOn))
    ensures !r.threw && isProduction ==> r.state != RedactionFailed && r.state != CoverageInsufficient
  {
    var outcome := RedactPayloadImages(payload, ocr, strictRequested || isProduction, storageOn);
    if outcome.threw {
      return Prepared(true, None, [], NoImages);
    }
    var persisted, images := Extract(outcome.payload);
    if |images| > 0 && !mediaAvailable {
      return Prepared(false, persisted, [], MediaUnavailable);
    }
    return Prepared(false, persisted, images, outcome.state);
  }

  lemma {:induction false} AppliedAreCertified(payload: Json, ocr: Ocr, images: seq<Image>)
    requires AppliedTo(payload, ocr, images)
    ensures |images| <= |Images(payload)|
    ensures forall u :: u in Urls(images) ==> CertifiedResult(u, payload, ocr)
  {
    var next :| RedactedTo(payload, next, ocr) && Urls(images) == Images(next);
    var outs :| AllRedacted(Images(payload), outs, ocr) && next == Replace(payload, outs);
    ReplaceImages(payload, outs);
    assert |Urls(images)| == |images|;
    forall u | u in Images(next)
      ensures CertifiedResult(u, payload, ocr)
    {
      var i :| 0 <= i < |outs| && outs[i] == u;
    }
  }

  /** MAIN: the i-th image of an applied payload is the result of the i-th image captured: that image itself
      if nothing had to be masked, and otherwise the data URL of what it was encoded to. */
  lemma {:induction false} AppliedInOrder(payload: Json, ocr: Ocr, images: seq<Image>, i: nat)
    requires AppliedTo(payload, ocr, images) && NoProto(payload) && i < |Images(payload)|
    ensures |images| == |Images(payload)| && ocr.Some? && ocr.value(i).Certified?
    ensures images[i].dataUrl ==
            if ocr.value(i).masked == 0 then Images(payload)[i]
            else if ocr.value(i).png then "data:image/png;base64," + ocr.value(i).base64
            else "data:image/jpeg;base64," + ocr.value(i).base64
  {
    var next :| RedactedTo(payload, next, ocr) && Urls(images) == Images(next);
    var outs :| AllRedacted(Images(payload), outs, ocr) && next == Replace(payload, outs);
    ImagesAreImageUrls(payload);
    forall u | u in outs
      ensures IsImageUrl(u)
    {
      var j :| 0 <= j < |outs| && outs[j] == u;
      assert Images(payload)[j] in Images(payload);
      OutUrlIsImage(Images(payload)[j], ocr.value(j));
    }
    ReplaceInOrder(payload, outs);
    assert |Urls(images)| == |images| && Urls(images)[i] == images[i].dataUrl;
  }

  datatype Captured = Captured(threw: bool, persisted: Option<Json>, state: State, storeFailed: bool)

  /** The capture request. Whatever the payload, the OCR engine, the settings and the interleaving: the
      persisted payload is the captured one without its images, and whatever gets a row is the certified
      result of one of the payload's images, all of which were certified, its bytes encrypted in the store.
      In the state 'applied' and without a storage failure every certified result is stored. */
  method Capture(payload: Json, ocr: Ocr, strictRequested: bool, isProduction: bool, storageOn: bool,
                 media: MediaService?, userId: string, momentId: string, ids: seq<string>)
    returns (r: Captured, ghost images: seq<Image>, ghost stored: nat)
    requires media != null ==> media.Valid() && FreshIds(ids, media.rows) && |ids| >= MAX_IMAGES_PER_PAYLOAD
    modifies if media == null then {} else {media, media.store}
    ensures r.threw ==> ocr.Some? && exists i :: 0 <= i < |Images(payload)| && ocr.value(i).OtherError?
    ensures !r.threw ==> r.persisted == Clean(payload, false)
    ensures !r.threw && r.persisted.Some? ==> Images(r.persisted.value) == [] && IsClean(r.persisted.value, false)
    ensures stored <= |images| && stored <= |ids| && stored <= 6
    ensures stored > 0 ==> media != null && r.state == Applied && CanApply(payload, ocr, storageOn)
    ensures forall u :: u in Urls(images)[..stored] ==> CertifiedResult(u, payload, ocr)
    ensures media != null ==>
              && media.Valid() && Added(old(media.rows), media.rows, ids, stored)
              && HoldsAll(media.rows, media.store.objects, userId, momentId, ids, images, stored, Applied,
                          media.keys[0], media.codec)
              && Touched(old(media.store.objects), media.store.objects, KeysOfAll(userId, momentId, ids))
    ensures !r.threw && r.state == Applied && !r.storeFailed ==>
              stored == |images| && AppliedTo(payload, ocr, images)
    ensures !r.threw && media != null ==> (r.state == Applied <==> CanApply(payload, ocr, storageOn))
    ensures media != null && media.store.reliable && media.dbReliable
            && (forall i :: 0 <= i < |images| ==> media.codec.parse(images[i].dataUrl).Some?) ==>
              !r.storeFailed
    ensures !r.threw && isProduction ==> r.state != RedactionFailed && r.state != CoverageInsufficient
  {
    var prepared := Prepare(payload, ocr, strictRequested, isProduction, storageOn, media != null);
    images, stored := prepared.images, 0;
    var ok := true;
    if !prepared.threw {
      PersistedIsClean(payload, prepared.persisted);
      if prepared.state == Applied {
        AppliedAreCertified(payload, ocr, images);
      }
    }
    if |prepared.images| > 0 && media != null {
      ok, stored := media.StoreMomentImages(userId, momentId, prepared.images, prepared.state, ids);
    }
    r := Captured(prepared.threw, prepared.persisted, prepared.state, !ok);
  }

  // ---------------------------------------------------------------- live frames

  function CertifiedFrames(frames: seq<string>, ocr: nat -> Analysis, n: nat): seq<string>
    requires n <= |frames|
  {
    if n == 0 then []
    else CertifiedFrames(frames, ocr, n - 1) + if ocr(n - 1).Certified? then [OutUrl(frames[n - 1], ocr(n - 1))] else []
  }

  /** The certified ones of the first n frames. */
  function Certified(ocr: nat -> Analysis, n: nat): set<nat> {
    set j | 0 <= j < n && ocr(j).Certified?
  }

  lemma {:induction false} CertifiedOneMore(ocr: nat -> Analysis, n: nat)
    ensures |Certified(ocr, n + 1)| == |Certified(ocr, n)| + if ocr(n).Certified? then 1 else 0
    ensures MaskedWords(ocr, n + 1) == MaskedWords(ocr, n) + if ocr(n).Certified? then ocr(n).masked else 0
    ensures Certified(ocr, 0) == {} && MaskedWords(ocr, 0) == 0
  {
    assert Certified(ocr, n + 1) == Certified(ocr, n) + if ocr(n).Certified? then {n} else {};
  }

  /** Each certified frame's result stands where the certified frames before it leave it: the frame itself if
      nothing had to be masked, and otherwise the data URL of what it was encoded to. */
  lemma {:induction false} CertifiedFrameAt(frames: seq<string>, ocr: nat -> Analysis, n: nat, i: nat)
    requires i < n <= |frames| && ocr(i).Certified?
    ensures |CertifiedFrames(frames, ocr, n)| == |Certified(ocr, n)| > |Certified(ocr, i)|
    ensures CertifiedFrames(frames, ocr, n)[|Certified(ocr, i)|] ==
            if ocr(i).masked == 0 then frames[i]
            else if ocr(i).png then "data:image/png;base64," + ocr(i).base64
            else "data:image/jpeg;base64," + ocr(i).base64
  {
    CertifiedOneMore(ocr, n - 1);
    CertifiedCount(frames, ocr, n - 1);
    if i < n - 1 {
      CertifiedFrameAt(frames, ocr, n - 1, i);
    }
  }

  lemma {:induction false} CertifiedCount(frames: seq<string>, ocr: nat -> Analysis, n: nat)
    requires n <= |frames|
    ensures |CertifiedFrames(frames, ocr, n)| == |Certified(ocr, n)|
  {
    if n > 0 {
      CertifiedCount(frames, ocr, n - 1);
      CertifiedOneMore(ocr, n - 1);
    }
  }

  /** How many words were masked in the certified ones of the first n frames. */
  function MaskedWords(ocr: nat -> Analysis, n: nat): nat {
    if n == 0 then 0 else MaskedWords(ocr, n - 1) + if ocr(n - 1).Certified? then ocr(n - 1).masked else 0
  }

  datatype Frames = Frames(threw: bool, frames: seq<string>, masked: nat, dropped: nat, redacted: bool)

  /** Live frames: with OCR on, exactly the certified results go on, in order, and the rest are dropped. A
      frame that was masked never goes on as it was captured. */
  method RedactFrames(frames: seq<string>, ocr: Ocr) returns (r: Frames)
    ensures ocr.None? ==> r == Frames(false, frames, 0, 0, false)
    ensures !r.threw && ocr.Some? ==>
              && r.redacted && r.frames == CertifiedFrames(frames, ocr.value, |frames|)
              && |r.frames| == |Certified(ocr.value, |frames|)| && |r.frames| + r.dropped == |frames|
              && r.masked == MaskedWords(ocr.value, |frames|)
    ensures !r.threw && ocr.Some? ==>
              forall i :: 0 <= i < |frames| && ocr.value(i).Certified? ==>
                && |Certified(ocr.value, i)| < |r.frames|
                && r.frames[|Certified(ocr.value, i)|] ==
                   if ocr.value(i).masked == 0 then frames[i]
                   else if ocr.value(i).png then "data:image/png;base64," + ocr.value(i).base64
                   else "data:image/jpeg;base64," + ocr.value(i).base64
    ensures r.threw <==> ocr.Some? && exists i :: 0 <= i < |frames| && ocr.value(i).OtherError?
    ensures r.threw ==> r.frames == []
  {
    if ocr.None? {
      return Frames(false, frames, 0, 0, false);
    }
    var out, masked, dropped := [], 0, 0;
    for i := 0 to |frames|
      invariant out == CertifiedFrames(frames, ocr.value, i) && |out| + dropped == i
      invariant masked == MaskedWords(ocr.value, i)
      invariant forall j :: 0 <= j < i ==> !ocr.value(j).OtherError?
    {
      match ocr.value(i) {
        case Certified(words, _, _, _) =>
          masked := masked + words;
          out := out + [OutUrl(frames[i], ocr.value(i))];
        case InsufficientResolution =>
          dropped := dropped + 1;
        case RedactionError =>
          dropped := dropped + 1;
        case OtherError =>
          return Frames(true, [], 0, 0, false);
      }
    }
    CertifiedCount(frames, ocr.value, |frames|);
    forall i | 0 <= i < |frames| && ocr.value(i).Certified?
      ensures |Certified(ocr.value, i)| < |out|
      ensures out[|Certified(ocr.value, i)|] ==
              if ocr.value(i).masked == 0 then frames[i]
              else if ocr.value(i).png then "data:image/png;base64," + ocr.value(i).base64
              else "data:image/jpeg;base64," + ocr.value(i).base64
    {
      CertifiedFrameAt(frames, ocr.value, |frames|, i);
    }
    return Frames(false, out, masked, dropped, true);
  }

  /** Nothing else goes on: each frame handed on is the result of some certified frame. */
  lemma {:induction false} FramesAreResults(frames: seq<string>, ocr: nat -> Analysis, n: nat, u: string)
    requires n <= |frames| && u in CertifiedFrames(frames, ocr, n)
    ensures exists i :: 0 <= i < n && ocr(i).Certified? && u == OutUrl(frames[i], ocr(i))
  {
    if u in CertifiedFrames(frames, ocr, n - 1) {
      FramesAreResults(frames, ocr, n - 1, u);
    }
  }
}
