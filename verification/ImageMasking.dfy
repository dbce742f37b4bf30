/** Painting the sensitive boxes over a decoded bitmap, and the redaction of one image. */
module ImageMasking {
  import opened CapturePipeline
  import opened Common
  import opened VisualRedaction
  import opened SafeText

  const BOX_PADDING := 3
  const MIN_ANALYSIS_WIDTH := 1280
  const MIN_ANALYSIS_HEIGHT := 600

  newtype byte = b: int | 0 <= b < 256

  datatype Rgba = Rgba(r: byte, g: byte, b: byte, a: byte)

  const BLACK := Rgba(0, 0, 0, 255)

  // ---------------------------------------------------------------- the bitmap

  /** Index of the first byte of pixel (px, py) in a bitmap of width w. */
  function Index(w: nat, px: nat, py: nat): nat {
    4 * (py * w + px)
  }

  lemma {:induction false} IndexIsInside(w: nat, h: nat, px: nat, py: nat)
    requires px < w && py < h
    ensures Index(w, px, py) + 3 < 4 * (w * h)
  {
    assert py * w + w <= h * w by {
      assert (py + 1) * w <= h * w;
    }
  }

  lemma {:induction false} IndexIsInjective(w: nat, px: nat, py: nat, qx: nat, qy: nat)
    requires px < w && qx < w && (px != qx || py != qy)
    ensures py * w + px != qy * w + qx
  {
    if py < qy {
      assert (py + 1) * w <= qy * w;
    } else if qy < py {
      assert (qy + 1) * w <= py * w;
    }
  }

  ghost predicate IsBitmap(data: seq<byte>, w: nat, h: nat) {
    |data| == 4 * (w * h)
  }

  ghost function Pixel(data: seq<byte>, w: nat, h: nat, px: nat, py: nat): Rgba
    requires IsBitmap(data, w, h) && px < w && py < h
  {
    IndexIsInside(w, h, px, py);
    var i := Index(w, px, py);
    Rgba(data[i], data[i + 1], data[i + 2], data[i + 3])
  }

  /** A set of pixels. */
  type Region = (int, int) -> bool

  /** Exactly the pixels of the region have become opaque black. */
  ghost predicate Painted(before: seq<byte>, after: seq<byte>, w: nat, h: nat, region: Region) {
    && IsBitmap(before, w, h) && IsBitmap(after, w, h)
    && forall px: nat, py: nat :: px < w && py < h ==>
         Pixel(after, w, h, px, py) == if region(px, py) then BLACK else Pixel(before, w, h, px, py)
  }

  lemma {:induction false} PaintedTwice(a: seq<byte>, b: seq<byte>, c: seq<byte>, w: nat, h: nat, first: Region,
                                        second: Region, both: Region)
    requires Painted(a, b, w, h, first) && Painted(b, c, w, h, second)
    requires forall px: nat, py: nat :: px < w && py < h ==> (both(px, py) <==> first(px, py) || second(px, py))
    ensures Painted(a, c, w, h, both)
  {
    forall px: nat, py: nat | px < w && py < h
      ensures Pixel(c, w, h, px, py) == if both(px, py) then BLACK else Pixel(a, w, h, px, py)
    {
      assert Pixel(c, w, h, px, py) == if second(px, py) then BLACK else Pixel(b, w, h, px, py);
      assert Pixel(b, w, h, px, py) == if first(px, py) then BLACK else Pixel(a, w, h, px, py);
    }
  }

  // ---------------------------------------------------------------- painting

  lemma {:induction false} OnePixel(before: seq<byte>, after: seq<byte>, w: nat, h: nat, x: nat, y: nat)
    requires IsBitmap(before, w, h) && IsBitmap(after, w, h) && x < w && y < h
    requires Index(w, x, y) + 3 < |after|
    requires after ==
               before[Index(w, x, y) := 0][Index(w, x, y) + 1 := 0][Index(w, x, y) + 2 := 0][Index(w, x, y) + 3 := 255]
    ensures Painted(before, after, w, h, (px, py) => px == x && py == y)
  {
    forall px: nat, py: nat | px < w && py < h
      ensures Pixel(after, w, h, px, py) == if px == x && py == y then BLACK else Pixel(before, w, h, px, py)
    {
      IndexIsInside(w, h, px, py);
      if px != x || py != y {
        IndexIsInjective(w, px, py, x, y);
      }
    }
  }

  /** The scan callback: the four bytes of one pixel. */
  method PaintPixel(data: array<byte>, w: nat, h: nat, x: nat, y: nat)
    requires IsBitmap(data[..], w, h) && x < w && y < h
    modifies data
    ensures Painted(old(data[..]), data[..], w, h, (px, py) => px == x && py == y)
    ensures 4 * (y * w + x) + 3 < data.Length && data[4 * (y * w + x)..4 * (y * w + x) + 4] == [0, 0, 0, 255]
  {
    IndexIsInside(w, h, x, y);
    var idx := Index(w, x, y);
    ghost var was := data[..];
    data[idx] := 0;
    data[idx + 1] := 0;
    data[idx + 2] := 0;
    data[idx + 3] := 255;
    assert data[..] == was[idx := 0][idx + 1 := 0][idx + 2 := 0][idx + 3 := 255];
    OnePixel(was, data[..], w, h, x, y);
  }

  method PaintRow(data: array<byte>, w: nat, h: nat, x: nat, x2: nat, y: nat)
    requires IsBitmap(data[..], w, h) && x <= x2 <= w && y < h
    modifies data
    ensures Painted(old(data[..]), data[..], w, h, (px, py) => x <= px < x2 && py == y)
  {
    ghost var was := data[..];
    for i := x to x2
      invariant Painted(was, data[..], w, h, (px, py) => x <= px < i && py == y)
    {
      ghost var before := data[..];
      PaintPixel(data, w, h, i, y);
      PaintedTwice(was, before, data[..], w, h, (px, py) => x <= px < i && py == y, (px, py) => px == i && py == y,
                   (px, py) => x <= px < i + 1 && py == y);
    }
  }

  method PaintRect(data: array<byte>, w: nat, h: nat, x: nat, y: nat, x2: nat, y2: nat)
    requires IsBitmap(data[..], w, h) && x <= x2 <= w && y <= y2 <= h
    modifies data
    ensures Painted(old(data[..]), data[..], w, h, (px, py) => x <= px < x2 && y <= py < y2)
  {
    ghost var was := data[..];
    for j := y to y2
      invariant Painted(was, data[..], w, h, (px, py) => x <= px < x2 && y <= py < j)
    {
      ghost var before := data[..];
      PaintRow(data, w, h, x, x2, j);
      PaintedTwice(was, before, data[..], w, h, (px, py) => x <= px < x2 && y <= py < j,
                   (px, py) => x <= px < x2 && py == j, (px, py) => x <= px < x2 && y <= py < j + 1);
    }
  }

  function Ceil(r: real): (c: int)
    ensures (c - 1) as real < r <= c as real
  {
    -((-r).Floor)
  }

  /** The unit square of pixel (px, py) meets the box grown by the padding on every side. */
  predicate Touches(px: int, py: int, at: Rect) {
    && px as real + 1.0 > at.x0 - BOX_PADDING as real && px as real < at.x1 + BOX_PADDING as real
    && py as real + 1.0 > at.y0 - BOX_PADDING as real && py as real < at.y1 + BOX_PADDING as real
  }

  /** Flooring, ceiling, padding and clipping lose no pixel and add none: a pixel is painted exactly when its
      unit square meets the box grown by three on every side. */
  lemma {:induction false} ClippedExactly(at: Rect, w: nat, h: nat, px: nat, py: nat)
    requires px < w && py < h
    ensures Touches(px, py, at) <==>
            && at.x0.Floor - 3 <= px < Ceil(at.x1) + 3
            && at.y0.Floor - 3 <= py < Ceil(at.y1) + 3
    ensures Touches(px, py, at) <==>
            && px as real + 1.0 > at.x0 - 3.0 && px as real < at.x1 + 3.0
            && py as real + 1.0 > at.y0 - 3.0 && py as real < at.y1 + 3.0
  {
  }

  function Low(r: real): nat {
    if r.Floor - BOX_PADDING < 0 then 0 else r.Floor - BOX_PADDING
  }

  function High(r: real, limit: nat): int {
    if Ceil(r) + BOX_PADDING < limit then Ceil(r) + BOX_PADDING else limit
  }

  method PaintBox(data: array<byte>, w: nat, h: nat, at: Rect)
    requires IsBitmap(data[..], w, h)
    modifies data
    ensures Painted(old(data[..]), data[..], w, h, (px, py) => Touches(px, py, at))
  {
    ghost var was := data[..];
    var x, y, x2, y2 := Low(at.x0), Low(at.y0), High(at.x1, w), High(at.y1, h);
    forall px: nat, py: nat | px < w && py < h
      ensures Touches(px, py, at) <==> x <= px < x2 && y <= py < y2
    {
      ClippedExactly(at, w, h, px, py);
    }
    if x2 <= x || y2 <= y {
      return;
    }
    PaintRect(data, w, h, x, y, x2, y2);
    assert Painted(was, data[..], w, h, (px, py) => x <= px < x2 && y <= py < y2);
  }

  predicate TouchesAny(px: int, py: int, boxes: seq<Box>) {
    exists k :: 0 <= k < |boxes| && Touches(px, py, boxes[k].at)
  }

  /** Exactly the pixels that touch some padded box are opaque black now; the others are what they were. */
  ghost predicate MaskedBy(before: seq<byte>, after: seq<byte>, w: nat, h: nat, boxes: seq<Box>) {
    Painted(before, after, w, h, (px, py) => TouchesAny(px, py, boxes))
  }

  /** MAIN: a pixel is opaque black if it touches some padded box, and otherwise what it was. */
  method PaintBoxes(data: array<byte>, w: nat, h: nat, boxes: seq<Box>)
    requires IsBitmap(data[..], w, h)
    modifies data
    ensures MaskedBy(old(data[..]), data[..], w, h, boxes)
  {
    ghost var was := data[..];
    for k := 0 to |boxes|
      invariant MaskedBy(was, data[..], w, h, boxes[..k])
    {
      ghost var before := data[..];
      PaintBox(data, w, h, boxes[k].at);
      forall px: nat, py: nat | px < w && py < h
        ensures TouchesAny(px, py, boxes[..k + 1]) <==> TouchesAny(px, py, boxes[..k]) || Touches(px, py, boxes[k].at)
      {
        OneMoreBox(px, py, boxes, k);
      }
      PaintedTwice(was, before, data[..], w, h, (px, py) => TouchesAny(px, py, boxes[..k]),
                   (px, py) => Touches(px, py, boxes[k].at), (px, py) => TouchesAny(px, py, boxes[..k + 1]));
    }
    assert boxes[..|boxes|] == boxes;
  }

  lemma {:induction false} OneMoreBox(px: int, py: int, boxes: seq<Box>, k: nat)
    requires k < |boxes|
    ensures TouchesAny(px, py, boxes[..k + 1]) <==> TouchesAny(px, py, boxes[..k]) || Touches(px, py, boxes[k].at)
  {
    var fewer, more := boxes[..k], boxes[..k + 1];
    if i :| 0 <= i < |fewer| && Touches(px, py, fewer[i].at) {
      assert more[i] == fewer[i];
    }
    assert more[k] == boxes[k];
    if i :| 0 <= i < |more| && Touches(px, py, more[i].at) {
      assert i < k ==> fewer[i] == more[i];
    }
  }

  // ---------------------------------------------------------------- redacting one image

  /** `meetsAnalysisFloor` */
  predicate MeetsAnalysisFloor(w: nat, h: nat) {
    w >= MIN_ANALYSIS_WIDTH && h >= MIN_ANALYSIS_HEIGHT
  }

  /** `redactImageDataUrl`, given the mime type of a parsed URL, the decoded bitmap and what OCR makes of
      it (None where the step throws). Only a large enough image that OCR could read is certified; only
      then are pixels changed; and below the floor the words OCR would have read play no part. */
  method RedactImage(mime: Option<string>, decodes: bool, data: array<byte>, w: nat, h: nat,
                     recognized: Option<seq<Word>>, detect: Detector, encode: (bool, seq<byte>) -> Option<string>)
    returns (r: Analysis)
    requires IsBitmap(data[..], w, h)
    modifies data
    ensures r.InsufficientResolution? <==> mime.Some? && decodes && !MeetsAnalysisFloor(w, h)
    ensures r.InsufficientResolution? <==> mime.Some? && decodes && (w < 1280 || h < 600)
    ensures r.RedactionError? <==> mime.None? || !decodes || (MeetsAnalysisFloor(w, h) && recognized.None?)
    ensures r.InsufficientResolution? || r.RedactionError? ==> data[..] == old(data[..])
    ensures r.Certified? || r.OtherError? ==>
              && recognized.Some?
              && MaskedBy(old(data[..]), data[..], w, h, BoxesOf(recognized.value, detect))
    ensures r.Certified? ==>
              && r.masked == |BoxesOf(recognized.value, detect)|
              && r.safeText == SafeOcrText(recognized.value, BoxesOf(recognized.value, detect))
              && r.png == (mime.value == "image/png")
              && (r.masked > 0 ==> encode(r.png, data[..]) == Some(r.base64))
    ensures r.OtherError? ==>
              BoxesOf(recognized.value, detect) != [] && encode(mime.value == "image/png", data[..]) == None
  {
    if mime.None? || !decodes {
      return RedactionError;
    }
    if !MeetsAnalysisFloor(w, h) {
      return InsufficientResolution;
    }
    if recognized.None? {
      return RedactionError;
    }
    var boxes, tally := ClassifySensitiveWords(recognized.value, detect);
    var safeText := SafeOcrText(recognized.value, boxes);
    var png := mime.value == "image/png";
    if |boxes| == 0 {
      return Certified(0, png, "", safeText);
    }
    PaintBoxes(data, w, h, boxes);
    var out := encode(png, data[..]);
    if out.None? {
      return OtherError;
    }
    return Certified(|boxes|, png, out.value, safeText);
  }

  /** MAIN: after painting, every pixel that touches a sensitive word is opaque black. */
  lemma {:induction false} MaskingIsComplete(words: seq<Word>, detect: Detector, before: seq<byte>,
                                             after: seq<byte>, w: nat, h: nat,
                                             k: nat, i: nat, px: nat, py: nat)
    requires MaskedBy(before, after, w, h, BoxesOf(words, detect))
    requires k < |Lines(words)| && Complete(Lines(words)[k]) && i < |Lines(words)[k].words|
    requires Sensitive(Lines(words)[k], i, detect)
    requires px < w && py < h && Touches(px, py, Lines(words)[k].words[i].at)
    ensures Pixel(after, w, h, px, py) == Rgba(0, 0, 0, 255)
  {
    AllLinesComplete(words);
    var at := Lines(words)[k].words[i].at;
    assert SensitiveAt(Lines(words)[k], at, detect);
    BoxedIff(Lines(words), detect, at);
    assert TouchesAny(px, py, BoxesOf(words, detect));
  }

  /** MAIN: a pixel that touches no sensitive word is what it was. */
  lemma {:induction false} MaskingIsExact(words: seq<Word>, detect: Detector, before: seq<byte>, after: seq<byte>,
                                          w: nat, h: nat,
                                          px: nat, py: nat)
    requires MaskedBy(before, after, w, h, BoxesOf(words, detect))
    requires px < w && py < h && Pixel(after, w, h, px, py) != Pixel(before, w, h, px, py)
    ensures AllComplete(Lines(words))
    ensures exists k, i ::
              && 0 <= k < |Lines(words)| && 0 <= i < |Lines(words)[k].words|
              && Sensitive(Lines(words)[k], i, detect) && Touches(px, py, Lines(words)[k].words[i].at)
  {
    AllLinesComplete(words);
    var lines, boxes := Lines(words), BoxesOf(words, detect);
    assert TouchesAny(px, py, boxes);
    var b :| 0 <= b < |boxes| && Touches(px, py, boxes[b].at);
    assert Boxed(boxes, boxes[b].at);
    BoxedIff(lines, detect, boxes[b].at);
    var k :| 0 <= k < |lines| && SensitiveAt(lines[k], boxes[b].at, detect);
    var i :| 0 <= i < |lines[k].words| && lines[k].words[i].at == boxes[b].at && Sensitive(lines[k], i, detect);
  }
}
