/** Inline images in JSON payloads: the walkers that strip, extract and sanitize them. */
module PayloadTrees {
  import opened Common

  datatype Field = Field(key: string, value: Json)

  /** A parsed JSON value; an object is its own entries in order. */
  datatype Json =
    | Null
    | Boolean(b: bool)
    | Number(n: int)
    | Str(s: string)
    | Arr(items: seq<Json>)
    | Obj(fields: seq<Field>)

  // ---------------------------------------------------------------- detection

  predicate IsSpace(c: char) {
    IsWhitespace(c as int)
  }

  function Lower(s: string): string {
    seq(|s|, i requires 0 <= i < |s| => if 'A' <= s[i] <= 'Z' then (s[i] as int + 32) as char else s[i])
  }

  const IMAGE_SCHEME := "data:image/"

  /** `/^\s*data:image\//i` */
  predicate IsImageUrl(s: string) {
    if s != "" && IsSpace(s[0]) then IsImageUrl(s[1..])
    else |s| >= |IMAGE_SCHEME| && Lower(s[..|IMAGE_SCHEME|]) == IMAGE_SCHEME
  }

  predicate IsLegacyKey(k: string) {
    Lower(k) == "screenshot_data_url"
  }

  /** The string is `data:image/` in letters of either case, after nothing but whitespace. */
  ghost predicate IsImageFrom(s: string, n: nat) {
    && n + 11 <= |s|
    && (forall i :: 0 <= i < n ==> IsWhitespace(s[i] as int))
    && forall i :: 0 <= i < 11 ==> s[n + i] == "data:image/"[i] || s[n + i] == "DATA:IMAGE/"[i]
  }

  lemma {:induction false} ImageUrlMeans(s: string)
    ensures IsImageUrl(s) <==> exists n: nat :: IsImageFrom(s, n)
  {
    if s != "" && IsSpace(s[0]) {
      ImageUrlMeans(s[1..]);
      if n: nat :| IsImageFrom(s, n) {
        assert "data:image/"[0] == 'd' && "DATA:IMAGE/"[0] == 'D';
        assert n > 0;
        assert IsImageFrom(s[1..], n - 1);
      }
      if n: nat :| IsImageFrom(s[1..], n) {
        assert IsImageFrom(s, n + 1);
      }
    } else {
      SchemeMeans(s);
    }
  }

  lemma {:induction false} SchemeMeans(s: string)
    requires s == "" || !IsSpace(s[0])
    ensures |s| >= 11 && Lower(s[..11]) == "data:image/" <==> exists n: nat :: IsImageFrom(s, n)
  {
    if |s| >= 11 {
      CaseFolds(s[..11], "data:image/", "DATA:IMAGE/");
      if Lower(s[..11]) == "data:image/" {
        assert IsImageFrom(s, 0);
      }
    }
    if n: nat :| IsImageFrom(s, n) {
      assert n == 0;
    }
  }

  lemma {:induction false} CaseFolds(s: string, small: string, big: string)
    requires |s| == |small| == |big| && Lower(big) == small
    requires forall i :: 0 <= i < |s| ==> !('A' <= small[i] <= 'Z')
    requires forall i :: 0 <= i < |s| ==>
               big[i] == if 'a' <= small[i] <= 'z' then (small[i] as int - 32) as char else small[i]
    ensures Lower(s) == small <==> forall i :: 0 <= i < |s| ==> s[i] == small[i] || s[i] == big[i]
  {
    var l := Lower(s);
    if l == small {
      forall i | 0 <= i < |s|
        ensures s[i] == small[i] || s[i] == big[i]
      {
        assert l[i] == small[i];
      }
    }
    if forall i :: 0 <= i < |s| ==> s[i] == small[i] || s[i] == big[i] {
      assert forall i :: 0 <= i < |s| ==> Lower(big)[i] == small[i];
      assert forall i :: 0 <= i < |s| ==> l[i] == small[i];
    }
  }

  lemma {:induction false} LegacyKeyMeans(k: string)
    ensures IsLegacyKey(k) <==>
            && |k| == 19
            && forall i :: 0 <= i < 19 ==> k[i] == "screenshot_data_url"[i] || k[i] == "SCREENSHOT_DATA_URL"[i]
  {
    if |k| == 19 {
      CaseFolds(k, "screenshot_data_url", "SCREENSHOT_DATA_URL");
    }
  }

  /** Assigning to this key of an object literal sets its prototype and adds no entry. */
  const PROTO := "__proto__"

  // ---------------------------------------------------------------- what the walkers compute

  /** The tree without inline images; with `textOnly`, also without the legacy screenshot key. None for
      a value that is itself an image. */
  function Clean(v: Json, textOnly: bool): Option<Json>
    decreases v, 0
  {
    match v
    case Str(s) => if IsImageUrl(s) then None else Some(v)
    case Arr(items) => Some(Arr(CleanItems(items, textOnly)))
    case Obj(fields) => Some(Obj(CleanFields(fields, textOnly)))
    case _ => Some(v)
  }

  function CleanItems(items: seq<Json>, textOnly: bool): seq<Json>
    decreases items, 0
  {
    if items == [] then []
    else
      var last := Clean(items[|items| - 1], textOnly);
      CleanItems(items[..|items| - 1], textOnly) + if last.Some? then [last.value] else []
  }

  function CleanFields(fields: seq<Field>, textOnly: bool): seq<Field>
    decreases fields, 0
  {
    if fields == [] then []
    else CleanFields(fields[..|fields| - 1], textOnly) + CleanField(fields[|fields| - 1], textOnly)
  }

  function CleanField(f: Field, textOnly: bool): seq<Field>
    decreases f, 1
  {
    if textOnly && IsLegacyKey(f.key) then []
    else
      var next := Clean(f.value, textOnly);
      if next.None? || f.key == PROTO then [] else [Field(f.key, next.value)]
  }

  /** Every inline image of the tree, in traversal order. */
  function Images(v: Json): seq<string>
    decreases v, 0
  {
    match v
    case Str(s) => if IsImageUrl(s) then [s] else []
    case Arr(items) => ItemImages(items)
    case Obj(fields) => FieldImages(fields)
    case _ => []
  }

  function ItemImages(items: seq<Json>): seq<string>
    decreases items, 0
  {
    if items == [] then [] else ItemImages(items[..|items| - 1]) + Images(items[|items| - 1])
  }

  function FieldImages(fields: seq<Field>): seq<string>
    decreases fields, 0
  {
    if fields == [] then [] else FieldImages(fields[..|fields| - 1]) + Images(fields[|fields| - 1].value)
  }

  /** No inline image at any depth, no prototype key and, under textOnly, no legacy key. */
  predicate IsClean(v: Json, textOnly: bool)
    decreases v, 0
  {
    match v
    case Str(s) => !IsImageUrl(s)
    case Arr(items) => forall i :: 0 <= i < |items| ==> IsClean(items[i], textOnly)
    case Obj(fields) => forall i :: 0 <= i < |fields| ==> IsCleanField(fields[i], textOnly)
    case _ => true
  }

  predicate IsCleanField(f: Field, textOnly: bool)
    decreases f, 1
  {
    f.key != PROTO && (textOnly ==> !IsLegacyKey(f.key)) && IsClean(f.value, textOnly)
  }

  // ---------------------------------------------------------------- laws of the cleaned tree

  lemma {:induction false} CleanHasNoImages(v: Json, textOnly: bool)
    requires IsClean(v, textOnly)
    ensures Images(v) == []
    decreases v, 0
  {
    match v
    case Arr(items) => CleanItemsHaveNoImages(items, textOnly);
    case Obj(fields) => CleanFieldsHaveNoImages(fields, textOnly);
    case _ =>
  }

  lemma {:induction false} CleanItemsHaveNoImages(items: seq<Json>, textOnly: bool)
    requires forall i :: 0 <= i < |items| ==> IsClean(items[i], textOnly)
    ensures ItemImages(items) == []
    decreases items, 0
  {
    if items != [] {
      CleanItemsHaveNoImages(items[..|items| - 1], textOnly);
      CleanHasNoImages(items[|items| - 1], textOnly);
    }
  }

  lemma {:induction false} CleanFieldsHaveNoImages(fields: seq<Field>, textOnly: bool)
    requires forall i :: 0 <= i < |fields| ==> IsCleanField(fields[i], textOnly)
    ensures FieldImages(fields) == []
    decreases fields, 0
  {
    if fields != [] {
      CleanFieldsHaveNoImages(fields[..|fields| - 1], textOnly);
      assert IsCleanField(fields[|fields| - 1], textOnly);
      CleanHasNoImages(fields[|fields| - 1].value, textOnly);
    }
  }

  /** The output of a walker is clean. */
  lemma {:induction false} CleanIsClean(v: Json, textOnly: bool)
    requires Clean(v, textOnly).Some?
    ensures IsClean(Clean(v, textOnly).value, textOnly)
    decreases v, 0
  {
    match v
    case Arr(items) => CleanItemsAreClean(items, textOnly);
    case Obj(fields) => CleanFieldsAreClean(fields, textOnly);
    case _ =>
  }

  lemma {:induction false} CleanItemsAreClean(items: seq<Json>, textOnly: bool)
    ensures forall i :: 0 <= i < |CleanItems(items, textOnly)| ==> IsClean(CleanItems(items, textOnly)[i], textOnly)
    decreases items, 0
  {
    if items != [] {
      CleanItemsAreClean(items[..|items| - 1], textOnly);
      if Clean(items[|items| - 1], textOnly).Some? {
        CleanIsClean(items[|items| - 1], textOnly);
      }
    }
  }

  lemma {:induction false} CleanFieldsAreClean(fields: seq<Field>, textOnly: bool)
    ensures forall i :: 0 <= i < |CleanFields(fields, textOnly)| ==>
              IsCleanField(CleanFields(fields, textOnly)[i], textOnly)
    decreases fields, 0
  {
    if fields != [] {
      CleanFieldsAreClean(fields[..|fields| - 1], textOnly);
      var last := fields[|fields| - 1];
      if CleanField(last, textOnly) != [] {
        CleanIsClean(last.value, textOnly);
        assert IsCleanField(CleanField(last, textOnly)[0], textOnly);
      }
    }
  }

  /** MAIN: a walker is the identity exactly on clean trees. */
  lemma {:induction false} IdentityIffClean(v: Json, textOnly: bool)
    ensures Clean(v, textOnly) == Some(v) <==> IsClean(v, textOnly)
  {
    if IsClean(v, textOnly) {
      CleanKeepsClean(v, textOnly);
    } else if Clean(v, textOnly).Some? {
      CleanIsClean(v, textOnly);
    }
  }

  lemma {:induction false} CleanKeepsClean(v: Json, textOnly: bool)
    requires IsClean(v, textOnly)
    ensures Clean(v, textOnly) == Some(v)
    decreases v, 0
  {
    match v
    case Arr(items) => CleanKeepsItems(items, textOnly);
    case Obj(fields) => CleanKeepsFields(fields, textOnly);
    case _ =>
  }

  lemma {:induction false} CleanKeepsItems(items: seq<Json>, textOnly: bool)
    requires forall i :: 0 <= i < |items| ==> IsClean(items[i], textOnly)
    ensures CleanItems(items, textOnly) == items
    decreases items, 0
  {
    if items != [] {
      CleanKeepsItems(items[..|items| - 1], textOnly);
      CleanKeepsClean(items[|items| - 1], textOnly);
    }
  }

  lemma {:induction false} CleanKeepsFields(fields: seq<Field>, textOnly: bool)
    requires forall i :: 0 <= i < |fields| ==> IsCleanField(fields[i], textOnly)
    ensures CleanFields(fields, textOnly) == fields
    decreases fields, 0
  {
    if fields != [] {
      CleanKeepsFields(fields[..|fields| - 1], textOnly);
      assert IsCleanField(fields[|fields| - 1], textOnly);
      CleanKeepsClean(fields[|fields| - 1].value, textOnly);
    }
  }

  /** MAIN: every walker is idempotent. */
  lemma {:induction false} CleanIsIdempotent(v: Json, textOnly: bool)
    requires Clean(v, textOnly).Some?
    ensures Clean(Clean(v, textOnly).value, textOnly) == Clean(v, textOnly)
  {
    CleanIsClean(v, textOnly);
    CleanKeepsClean(Clean(v, textOnly).value, textOnly);
  }

  // ---------------------------------------------------------------- the walkers of the source

  /** `stripImages`: the captured counter goes up by one for every image of the tree. */
  method StripImages(v: Json, stripped: nat) returns (r: Option<Json>, stripped': nat)
    ensures r == Clean(v, false) && stripped' == stripped + |Images(v)|
    decreases v
  {
    stripped' := stripped;
    match v
    case Str(s) =>
      if IsImageUrl(s) {
        return None, stripped + 1;
      }
      return Some(v), stripped;
    case Arr(items) =>
      var out: seq<Json> := [];
      for i := 0 to |items|
        invariant out == CleanItems(items[..i], false) && stripped' == stripped + |ItemImages(items[..i])|
      {
        assert items[..i + 1][..i] == items[..i];
        var next;
        next, stripped' := StripImages(items[i], stripped');
        if next.Some? {
          out := out + [next.value];
        }
      }
      assert items[..|items|] == items;
      return Some(Arr(out)), stripped';
    case Obj(fields) =>
      var out: seq<Field> := [];
      for i := 0 to |fields|
        invariant out == CleanFields(fields[..i], false) && stripped' == stripped + |FieldImages(fields[..i])|
      {
        assert fields[..i + 1][..i] == fields[..i];
        var next;
        next, stripped' := StripImages(fields[i].value, stripped');
        if next.Some? && fields[i].key != PROTO {
          out := out + [Field(fields[i].key, next.value)];
        }
      }
      assert fields[..|fields|] == fields;
      return Some(Obj(out)), stripped';
    case _ =>
      return Some(v), stripped;
  }

  datatype Image = Image(dataUrl: string, screenshot: bool)

  function Urls(images: seq<Image>): seq<string> {
    seq(|images|, i requires 0 <= i < |images| => images[i].dataUrl)
  }

  /** Every inline image with its kind: only a value directly under the screenshot key is a screenshot,
      and array elements lose the key. */
  function Extracted(v: Json, keyHint: Option<string>): seq<Image>
    decreases v, 0
  {
    match v
    case Str(s) => if IsImageUrl(s) then [Image(s, keyHint.Some? && IsLegacyKey(keyHint.value))] else []
    case Arr(items) => ExtractedItems(items)
    case Obj(fields) => ExtractedFields(fields)
    case _ => []
  }

  function ExtractedItems(items: seq<Json>): seq<Image>
    decreases items, 0
  {
    if items == [] then [] else ExtractedItems(items[..|items| - 1]) + Extracted(items[|items| - 1], None)
  }

  function ExtractedFields(fields: seq<Field>): seq<Image>
    decreases fields, 0
  {
    if fields == [] then []
    else
      var last := fields[|fields| - 1];
      ExtractedFields(fields[..|fields| - 1]) + Extracted(last.value, Some(last.key))
  }

  /** As many images are extracted as are stripped, the same ones in the same order. */
  lemma {:induction false} ExtractedAreTheImages(v: Json, keyHint: Option<string>)
    ensures Urls(Extracted(v, keyHint)) == Images(v)
    decreases v, 0
  {
    match v
    case Arr(items) => ExtractedItemsAreTheImages(items);
    case Obj(fields) => ExtractedFieldsAreTheImages(fields);
    case _ =>
  }

  lemma {:induction false} ExtractedItemsAreTheImages(items: seq<Json>)
    ensures Urls(ExtractedItems(items)) == ItemImages(items)
    decreases items, 0
  {
    if items != [] {
      ExtractedItemsAreTheImages(items[..|items| - 1]);
      ExtractedAreTheImages(items[|items| - 1], None);
      UrlsConcat(ExtractedItems(items[..|items| - 1]), Extracted(items[|items| - 1], None));
    }
  }

  lemma {:induction false} ExtractedFieldsAreTheImages(fields: seq<Field>)
    ensures Urls(ExtractedFields(fields)) == FieldImages(fields)
    decreases fields, 0
  {
    if fields != [] {
      var last := fields[|fields| - 1];
      ExtractedFieldsAreTheImages(fields[..|fields| - 1]);
      ExtractedAreTheImages(last.value, Some(last.key));
      UrlsConcat(ExtractedFields(fields[..|fields| - 1]), Extracted(last.value, Some(last.key)));
    }
  }

  /** Only a value directly under the screenshot key is a screenshot: deeper ones and array items are not. */
  lemma {:induction false} FieldKinds(fields: seq<Field>, f: Field, hint: Option<string>)
    ensures Extracted(Obj(fields + [f]), hint) == Extracted(Obj(fields), None) + Extracted(f.value, Some(f.key))
    ensures f.value.Str? && IsImageUrl(f.value.s) ==>
              Extracted(f.value, Some(f.key)) == [Image(f.value.s, IsLegacyKey(f.key))]
    ensures f.value.Arr? || f.value.Obj? ==> Extracted(f.value, Some(f.key)) == Extracted(f.value, None)
  {
    assert (fields + [f])[..|fields + [f]| - 1] == fields;
  }

  lemma {:induction false} ItemKinds(items: seq<Json>, v: Json, hint: Option<string>)
    ensures Extracted(Arr(items + [v]), hint) == Extracted(Arr(items), None) + Extracted(v, None)
    ensures v.Str? && IsImageUrl(v.s) ==> Extracted(v, None) == [Image(v.s, false)]
  {
    assert (items + [v])[..|items + [v]| - 1] == items;
  }

  lemma {:induction false} UrlsConcat(a: seq<Image>, b: seq<Image>)
    ensures Urls(a + b) == Urls(a) + Urls(b)
  {
  }

  /** `extractPayloadImages`: the same tree as stripping, and every image of it in order with its kind. */
  method ExtractPayloadImages(v: Json, keyHint: Option<string>, images: seq<Image>)
    returns (r: Option<Json>, images': seq<Image>)
    ensures r == Clean(v, false)
    ensures images' == images + Extracted(v, keyHint)
    decreases v
  {
    images' := images;
    match v
    case Str(s) =>
      if IsImageUrl(s) {
        images' := images + [Image(s, keyHint.Some? && IsLegacyKey(keyHint.value))];
        return None, images';
      }
      return Some(v), images;
    case Arr(items) =>
      var out;
      out, images' := ExtractFromItems(items, images);
      return Some(Arr(out)), images';
    case Obj(fields) =>
      var out;
      out, images' := ExtractFromFields(fields, images);
      return Some(Obj(out)), images';
    case _ =>
      return Some(v), images;
  }

  method ExtractFromItems(items: seq<Json>, images: seq<Image>) returns (out: seq<Json>, images': seq<Image>)
    ensures out == CleanItems(items, false) && images' == images + ExtractedItems(items)
    decreases items
  {
    out, images' := [], images;
    for i := 0 to |items|
      invariant out == CleanItems(items[..i], false) && images' == images + ExtractedItems(items[..i])
    {
      assert items[..i + 1][..i] == items[..i];
      var next;
      next, images' := ExtractPayloadImages(items[i], None, images');
      if next.Some? {
        out := out + [next.value];
      }
    }
    assert items[..|items|] == items;
  }

  method ExtractFromFields(fields: seq<Field>, images: seq<Image>) returns (out: seq<Field>, images': seq<Image>)
    ensures out == CleanFields(fields, false) && images' == images + ExtractedFields(fields)
    decreases fields
  {
    out, images' := [], images;
    for i := 0 to |fields|
      invariant out == CleanFields(fields[..i], false) && images' == images + ExtractedFields(fields[..i])
    {
      assert fields[..i + 1][..i] == fields[..i];
      var next;
      next, images' := ExtractPayloadImages(fields[i].value, Some(fields[i].key), images');
      if next.Some? && fields[i].key != PROTO {
        out := out + [Field(fields[i].key, next.value)];
      }
    }
    assert fields[..|fields|] == fields;
  }

  // ---------------------------------------------------------------- capture mode

  datatype CaptureMode = Full | Blurred | TextOnly

  /** `stripTextOnly`, as the map and filter of the source. */
  function StripTextOnly(v: Json): Option<Json>
    decreases v, 0
  {
    match v
    case Str(s) => if IsImageUrl(s) then None else Some(v)
    case Arr(items) => Some(Arr(StripTextOnlyItems(items)))
    case Obj(fields) => Some(Obj(StripTextOnlyFields(fields)))
    case _ => Some(v)
  }

  function StripTextOnlyItems(items: seq<Json>): seq<Json>
    decreases items, 0
  {
    if items == [] then []
    else
      var first := StripTextOnly(items[0]);
      (if first.Some? then [first.value] else []) + StripTextOnlyItems(items[1..])
  }

  function StripTextOnlyFields(fields: seq<Field>): seq<Field>
    decreases fields, 0
  {
    if fields == [] then []
    else if IsLegacyKey(fields[0].key) then StripTextOnlyFields(fields[1..])
    else
      var first := StripTextOnly(fields[0].value);
      (if first.None? || fields[0].key == PROTO then [] else [Field(fields[0].key, first.value)])
      + StripTextOnlyFields(fields[1..])
  }

  function ApplyCaptureMode(payload: Json, mode: CaptureMode): Option<Json> {
    if mode != TextOnly then Some(payload) else StripTextOnly(payload)
  }

  /** The capture mode decides only whether media leaves the client: text-only sends the clean tree, and
      every other mode sends the payload as it is. */
  lemma {:induction false} CaptureModeLaws(payload: Json, mode: CaptureMode)
    ensures mode == TextOnly ==> ApplyCaptureMode(payload, mode) == Clean(payload, true)
    ensures mode == TextOnly && ApplyCaptureMode(payload, mode).Some? ==>
              IsClean(ApplyCaptureMode(payload, mode).value, true)
    ensures ApplyCaptureMode(payload, mode) == Some(payload) <==> mode != TextOnly || IsClean(payload, true)
  {
    StripTextOnlyCleans(payload);
    IdentityIffClean(payload, true);
    if Clean(payload, true).Some? {
      CleanIsClean(payload, true);
    }
  }

  lemma {:induction false} CleanItemsFront(items: seq<Json>, textOnly: bool)
    requires items != []
    ensures CleanItems(items, textOnly) ==
            (if Clean(items[0], textOnly).Some? then [Clean(items[0], textOnly).value] else [])
            + CleanItems(items[1..], textOnly)
  {
    if |items| > 1 {
      var init := items[..|items| - 1];
      CleanItemsFront(init, textOnly);
      assert init[1..] == items[1..][..|items| - 2];
    }
  }

  lemma {:induction false} CleanFieldsFront(fields: seq<Field>, textOnly: bool)
    requires fields != []
    ensures CleanFields(fields, textOnly) == CleanField(fields[0], textOnly) + CleanFields(fields[1..], textOnly)
  {
    if |fields| > 1 {
      var init := fields[..|fields| - 1];
      CleanFieldsFront(init, textOnly);
      assert init[1..] == fields[1..][..|fields| - 2];
    }
  }

  /** MAIN: the client's text-only filter computes the cleaned tree. */
  lemma {:induction false} StripTextOnlyCleans(v: Json)
    ensures StripTextOnly(v) == Clean(v, true)
    decreases v, 0
  {
    match v
    case Arr(items) => StripTextOnlyItemsClean(items);
    case Obj(fields) => StripTextOnlyFieldsClean(fields);
    case _ =>
  }

  lemma {:induction false} StripTextOnlyItemsClean(items: seq<Json>)
    ensures StripTextOnlyItems(items) == CleanItems(items, true)
    decreases items, 0
  {
    if items != [] {
      StripTextOnlyCleans(items[0]);
      StripTextOnlyItemsClean(items[1..]);
      CleanItemsFront(items, true);
    }
  }

  lemma {:induction false} StripTextOnlyFieldsClean(fields: seq<Field>)
    ensures StripTextOnlyFields(fields) == CleanFields(fields, true)
    decreases fields, 0
  {
    if fields != [] {
      StripTextOnlyCleans(fields[0].value);
      StripTextOnlyFieldsClean(fields[1..]);
      CleanFieldsFront(fields, true);
    }
  }

  // ---------------------------------------------------------------- legacy sanitizer

  /** The walk met an inline image, or a legacy key that held something. */
  predicate Found(v: Json)
    decreases v, 0
  {
    match v
    case Str(s) => IsImageUrl(s)
    case Arr(items) => exists i :: 0 <= i < |items| && Found(items[i])
    case Obj(fields) => exists i :: 0 <= i < |fields| && FoundField(fields[i])
    case _ => false
  }

  predicate FoundField(f: Field)
    decreases f, 1
  {
    if IsLegacyKey(f.key) then f.value != Null else Found(f.value)
  }

  method SanitizeWalk(v: Json, found: bool) returns (r: Option<Json>, found': bool)
    ensures r == Clean(v, true) && (found' <==> found || Found(v))
    decreases v
  {
    found' := found;
    match v
    case Str(s) =>
      if IsImageUrl(s) {
        return None, true;
      }
      return Some(v), found;
    case Arr(items) =>
      var out: seq<Json> := [];
      for i := 0 to |items|
        invariant out == CleanItems(items[..i], true)
        invariant found' <==> found || exists j :: 0 <= j < i && Found(items[j])
      {
        assert items[..i + 1][..i] == items[..i];
        var next;
        next, found' := SanitizeWalk(items[i], found');
        if next.Some? {
          out := out + [next.value];
        }
      }
      assert items[..|items|] == items;
      return Some(Arr(out)), found';
    case Obj(fields) =>
      var out: seq<Field> := [];
      for i := 0 to |fields|
        invariant out == CleanFields(fields[..i], true)
        invariant found' <==> found || exists j :: 0 <= j < i && FoundField(fields[j])
      {
        assert fields[..i + 1][..i] == fields[..i];
        if IsLegacyKey(fields[i].key) {
          if fields[i].value != Null {
            found' := true;
          }
        } else {
          var next;
          next, found' := SanitizeWalk(fields[i].value, found');
          if next.Some? && fields[i].key != PROTO {
            out := out + [Field(fields[i].key, next.value)];
          }
        }
      }
      assert fields[..|fields|] == fields;
      return Some(Obj(out)), found';
    case _ =>
      return Some(v), found;
  }

  /** `{...o, [key]: value}`: an existing entry is overwritten in place. */
  function SetField(fields: seq<Field>, key: string, value: Json): seq<Field> {
    if fields == [] then [Field(key, value)]
    else if fields[0].key == key then [Field(key, value)] + fields[1..]
    else [fields[0]] + SetField(fields[1..], key, value)
  }

  const REASON := "legacy_inline_media_not_verified"

  function Flagged(fields: seq<Field>): seq<Field> {
    SetField(SetField(SetField(fields, "legacy_media_detected", Boolean(true)),
                      "legacy_media_excluded", Boolean(true)), "excluded_reason", Str(REASON))
  }

  /** What reading a key of an object gives. */
  function Lookup(fields: seq<Field>, key: string): Option<Json> {
    if fields == [] then None
    else if fields[0].key == key then Some(fields[0].value)
    else Lookup(fields[1..], key)
  }

  lemma {:induction false} SetFieldLookup(fields: seq<Field>, key: string, value: Json, other: string)
    ensures Lookup(SetField(fields, key, value), other) == if other == key then Some(value) else Lookup(fields, other)
  {
    if fields != [] && fields[0].key != key {
      SetFieldLookup(fields[1..], key, value, other);
    }
  }

  /** A flagged object reads as before, but for the three flags and their values. */
  lemma {:induction false} FlaggedMeans(fields: seq<Field>, key: string)
    ensures Lookup(Flagged(fields), key) ==
            if key == "legacy_media_detected" || key == "legacy_media_excluded" then Some(Boolean(true))
            else if key == "excluded_reason" then Some(Str("legacy_inline_media_not_verified"))
            else Lookup(fields, key)
  {
    var one := SetField(fields, "legacy_media_detected", Boolean(true));
    var two := SetField(one, "legacy_media_excluded", Boolean(true));
    SetFieldLookup(fields, "legacy_media_detected", Boolean(true), key);
    SetFieldLookup(one, "legacy_media_excluded", Boolean(true), key);
    SetFieldLookup(two, "excluded_reason", Str(REASON), key);
    FlagKeysDiffer();
  }

  lemma {:induction false} FlagKeysDiffer()
    ensures "excluded_reason" != "legacy_media_detected" && "excluded_reason" != "legacy_media_excluded"
    ensures "legacy_media_detected" != "legacy_media_excluded"
  {
    assert "excluded_reason"[0] != "legacy_media_detected"[0] && "excluded_reason"[0] != "legacy_media_excluded"[0];
    assert "legacy_media_detected"[13] != "legacy_media_excluded"[13];
  }

  function Digits(n: nat): string {
    if n < 10 then ["0123456789"[n]] else Digits(n / 10) + ["0123456789"[n % 10]]
  }

  /** The entries an object spread copies: an array's are its items under their indices. */
  function Spread(v: Json): seq<Field> {
    match v
    case Obj(fields) => fields
    case Arr(items) => seq(|items|, i requires 0 <= i < |items| => Field(Digits(i), items[i]))
    case _ => []
  }

  function Sanitized(payload: Json): Json {
    if !payload.Obj? && !payload.Arr? then payload
    else
      var cleaned := Clean(payload, true).value;
      if Found(payload) then Obj(Flagged(Spread(cleaned))) else cleaned
  }

  /** The cleaned tree, with the three flags added exactly when something was found. */
  method SanitizeLegacyInlineMedia(payload: Json) returns (r: Json)
    ensures r == Sanitized(payload)
  {
    if !payload.Obj? && !payload.Arr? {
      return payload;
    }
    var cleaned, found := SanitizeWalk(payload, false);
    if found {
      return Obj(Flagged(Spread(cleaned.value)));
    }
    return cleaned.value;
  }

  lemma {:induction false} SetFieldKeepsClean(fields: seq<Field>, f: Field)
    requires IsClean(Obj(fields), true) && IsCleanField(f, true)
    ensures IsClean(Obj(SetField(fields, f.key, f.value)), true)
  {
    if fields != [] {
      assert forall i :: 0 < i < |fields| ==> fields[1..][i - 1] == fields[i];
      assert IsClean(Obj(fields[1..]), true);
      SetFieldKeepsClean(fields[1..], f);
      var rest := SetField(fields[1..], f.key, f.value);
      assert forall i :: 0 <= i < |rest| ==> IsCleanField(rest[i], true);
    }
  }

  lemma {:induction false} OtherFirstLetter(s: string)
    requires s != "" && s[0] == 'l'
    ensures !IsImageUrl(s)
  {
    if |s| >= |IMAGE_SCHEME| {
      assert Lower(s[..|IMAGE_SCHEME|])[0] == 'l';
    }
  }

  lemma {:induction false} FlaggedIsClean(fields: seq<Field>)
    requires IsClean(Obj(fields), true)
    ensures IsClean(Obj(Flagged(fields)), true)
  {
    FlagKeysAreSafe();
    OtherFirstLetter(REASON);
    var detected := Field("legacy_media_detected", Boolean(true));
    var excluded := Field("legacy_media_excluded", Boolean(true));
    var reason := Field("excluded_reason", Str(REASON));
    var one := SetField(fields, detected.key, detected.value);
    SetFieldKeepsClean(fields, detected);
    var two := SetField(one, excluded.key, excluded.value);
    SetFieldKeepsClean(one, excluded);
    SetFieldKeepsClean(two, reason);
  }

  lemma {:induction false} FlagKeysAreSafe()
    ensures forall k :: k in {"legacy_media_detected", "legacy_media_excluded", "excluded_reason"} ==>
              !IsLegacyKey(k) && k != PROTO
  {
    assert |"screenshot_data_url"| == 19 && |PROTO| == 9;
    assert |Lower("legacy_media_detected")| == 21 && |Lower("legacy_media_excluded")| == 21;
    assert |Lower("excluded_reason")| == 15;
  }

  lemma {:induction false} CleanHasNothingToFind(v: Json)
    requires IsClean(v, true)
    ensures !Found(v)
    decreases v
  {
    match v
    case Arr(items) =>
      forall i | 0 <= i < |items|
        ensures !Found(items[i])
      {
        CleanHasNothingToFind(items[i]);
      }
    case Obj(fields) =>
      forall i | 0 <= i < |fields|
        ensures !FoundField(fields[i])
      {
        assert IsCleanField(fields[i], true);
        CleanHasNothingToFind(fields[i].value);
      }
    case _ =>
  }

  /** An image anywhere in the tree, under a legacy key too, is something to find. */
  lemma {:induction false} ImagesAreFound(v: Json)
    requires Images(v) != []
    ensures Found(v)
    decreases v, 0
  {
    match v
    case Arr(items) =>
      var i := ItemWithImages(items);
      ImagesAreFound(items[i]);
    case Obj(fields) =>
      var i := FieldWithImages(fields);
      ImagesAreFound(fields[i].value);
      assert FoundField(fields[i]);
    case _ =>
  }

  lemma {:induction false} ItemWithImages(items: seq<Json>) returns (i: nat)
    requires ItemImages(items) != []
    ensures i < |items| && Images(items[i]) != []
  {
    i := |items| - 1;
    if Images(items[i]) == [] {
      i := ItemWithImages(items[..i]);
    }
  }

  lemma {:induction false} FieldWithImages(fields: seq<Field>) returns (i: nat)
    requires FieldImages(fields) != []
    ensures i < |fields| && Images(fields[i].value) != []
  {
    i := |fields| - 1;
    if Images(fields[i].value) == [] {
      i := FieldWithImages(fields[..i]);
    }
  }

  /** Beyond what a clean tree may hold, only a prototype key and a legacy key without value go unnoticed. */
  lemma {:induction false} NothingFoundMeans(v: Json)
    requires !Found(v) && Unremarkable(v)
    ensures IsClean(v, true)
    decreases v, 0
  {
    match v
    case Arr(items) =>
      forall i | 0 <= i < |items|
        ensures IsClean(items[i], true)
      {
        NothingFoundMeans(items[i]);
      }
    case Obj(fields) =>
      forall i | 0 <= i < |fields|
        ensures IsCleanField(fields[i], true)
      {
        assert !FoundField(fields[i]) && UnremarkableField(fields[i]);
        NothingFoundMeans(fields[i].value);
      }
    case _ =>
  }

  /** No prototype key, and no legacy key that holds null, at any depth. */
  predicate Unremarkable(v: Json)
    decreases v, 0
  {
    match v
    case Arr(items) => forall i :: 0 <= i < |items| ==> Unremarkable(items[i])
    case Obj(fields) => forall i :: 0 <= i < |fields| ==> UnremarkableField(fields[i])
    case _ => true
  }

  predicate UnremarkableField(f: Field)
    decreases f, 1
  {
    f.key != PROTO && !(IsLegacyKey(f.key) && f.value == Null) && Unremarkable(f.value)
  }

  /** MAIN: on an object, the sanitizer is the text-only filter plus the flags when something was found;
      its output is clean, sanitizing again changes nothing, and it leaves exactly the clean objects alone. */
  lemma {:induction false} SanitizerLaws(payload: Json)
    requires payload.Obj?
    ensures Sanitized(payload) ==
            if Found(payload) then Obj(Flagged(StripTextOnly(payload).value.fields)) else StripTextOnly(payload).value
    ensures IsClean(Sanitized(payload), true)
    ensures Sanitized(Sanitized(payload)) == Sanitized(payload)
    ensures Sanitized(payload) == payload <==> IsClean(payload, true)
  {
    StripTextOnlyCleans(payload);
    CleanIsClean(payload, true);
    var cleaned := Clean(payload, true).value;
    if Found(payload) {
      FlaggedIsClean(cleaned.fields);
    }
    CleanHasNothingToFind(Sanitized(payload));
    CleanKeepsClean(Sanitized(payload), true);
    if IsClean(payload, true) {
      CleanHasNothingToFind(payload);
      CleanKeepsClean(payload, true);
    }
  }

  lemma {:induction false} DigitsStart(n: nat)
    ensures Digits(n) != [] && '0' <= Digits(n)[0] <= '9'
  {
    if n >= 10 {
      DigitsStart(n / 10);
    }
  }

  /** A spread array has only index keys, so it is as clean as the array. */
  lemma {:induction false} SpreadIsClean(v: Json)
    requires (v.Arr? || v.Obj?) && IsClean(v, true)
    ensures IsClean(Obj(Spread(v)), true)
  {
    if v.Arr? {
      forall i | 0 <= i < |v.items|
        ensures IsCleanField(Spread(v)[i], true)
      {
        DigitsStart(i);
        var key := Digits(i);
        assert key[0] != PROTO[0];
        assert Lower(key)[0] != "screenshot_data_url"[0];
      }
    }
  }

  function Decimal(s: string): int {
    if s == "" then 0 else 10 * Decimal(Init(s)) + (Last(s) as int - '0' as int)
  }

  /** An index is spelled in decimal digits, without a leading zero. */
  lemma {:induction false} DigitsMean(n: nat)
    ensures Decimal(Digits(n)) == n
    ensures forall i :: 0 <= i < |Digits(n)| ==> '0' <= Digits(n)[i] <= '9'
    ensures n > 0 ==> Digits(n)[0] != '0'
  {
    if n >= 10 {
      DigitsMean(n / 10);
      assert Init(Digits(n)) == Digits(n / 10);
    } else {
      assert Init(Digits(n)) == "";
    }
  }

  predicate IsBareImage(v: Json) {
    v.Str? && IsImageUrl(v.s)
  }

  /** MAIN: what the sanitizer returns is clean, at every depth and for arrays as well, exactly when the
      payload is not itself an image string: that one is returned as it is. */
  lemma {:induction false} SanitizedIsCleanIff(payload: Json)
    ensures IsClean(Sanitized(payload), true) <==> !IsBareImage(payload)
    ensures Images(Sanitized(payload)) == [] <==> !IsBareImage(payload)
  {
    if payload.Obj? || payload.Arr? {
      var cleaned := Clean(payload, true).value;
      CleanIsClean(payload, true);
      SpreadIsClean(cleaned);
      FlaggedIsClean(Spread(cleaned));
      CleanHasNoImages(Sanitized(payload), true);
    }
  }
}
