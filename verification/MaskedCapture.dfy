/** Capture and masking together: what gets stored of a payload, down to the pixel. */
module MaskedCapture {
  import opened Common
  import opened PayloadTrees
  import opened CapturePipeline
  import opened VisualRedaction
  import opened ImageMasking

  /** What parsing, decoding and reading an image URL comes to; None where the step throws. */
  datatype Scan = Scan(
    mime: Option<string>, decodes: bool, data: seq<byte>, w: nat, h: nat, recognized: Option<seq<Word>>)

  datatype Engine = Engine(scan: string -> Scan, detect: Detector, encode: (bool, seq<byte>) -> Option<string>)
  {
    ghost predicate Valid() {
      forall url :: IsBitmap(scan(url).data, scan(url).w, scan(url).h)
    }

    function Boxes(url: string): seq<Box> {
      if scan(url).recognized.Some? then BoxesOf(scan(url).recognized.value, detect) else []
    }
  }

  /** The bitmap has been masked and encoded under this URL. */
  ghost predicate EncodedFrom(stored: string, url: string, after: seq<byte>, e: Engine) {
    var s, png := e.scan(url), e.scan(url).mime == Some("image/png");
    && IsBitmap(s.data, s.w, s.h) && MaskedBy(s.data, after, s.w, s.h, e.Boxes(url))
    && e.encode(png, after).Some?
    && stored == (if png then "data:image/png;base64," else "data:image/jpeg;base64,") + e.encode(png, after).value
  }

  /** What may be kept of an image: one that is large enough and could be read, as it was when nothing in it
      is sensitive, and masked and encoded anew otherwise. */
  ghost predicate SafeCopy(stored: string, url: string, e: Engine) {
    && e.scan(url).recognized.Some? && MeetsAnalysisFloor(e.scan(url).w, e.scan(url).h)
    && if e.Boxes(url) == [] then stored == url else exists after :: EncodedFrom(stored, url, after, e)
  }

  /** `redactImageDataUrl`: a certified result is a safe copy of its image. */
  method RedactDataUrl(e: Engine, url: string) returns (a: Analysis)
    requires e.Valid()
    ensures a.Certified? ==> SafeCopy(OutUrl(url, a), url, e)
  {
    var s := e.scan(url);
    var data := new byte[|s.data|](i requires 0 <= i < |s.data| => s.data[i]);
    assert data[..] == s.data;
    a := RedactImage(s.mime, s.decodes, data, s.w, s.h, s.recognized, e.detect, e.encode);
    if a.Certified? && a.masked > 0 {
      assert EncodedFrom(OutUrl(url, a), url, data[..], e);
    }
  }

  /** Whatever capture stores is a safe copy of one of the payload's images. */
  lemma {:induction false} StoredAreSafeCopies(payload: Json, ocr: Ocr, e: Engine, stored: seq<string>)
    requires ocr.Some? ==> forall i :: 0 <= i < |Images(payload)| && ocr.value(i).Certified? ==>
               SafeCopy(OutUrl(Images(payload)[i], ocr.value(i)), Images(payload)[i], e)
    requires forall u :: u in stored ==> CertifiedResult(u, payload, ocr)
    ensures forall u :: u in stored ==> exists url :: url in Images(payload) && SafeCopy(u, url, e)
  {
    forall u | u in stored
      ensures exists url :: url in Images(payload) && SafeCopy(u, url, e)
    {
      var i :| 0 <= i < |Images(payload)| && ocr.value(i).Certified? && u == OutUrl(Images(payload)[i], ocr.value(i));
      assert Images(payload)[i] in Images(payload);
    }
  }

  ghost predicate IsSafeResult(e: Engine, url: string, a: Analysis) {
    a.Certified? ==> SafeCopy(OutUrl(url, a), url, e)
  }

  /** Of as many of the frames as there are analyses, each certified result is a safe copy. */
  ghost predicate AllSafe(e: Engine, frames: seq<string>, analyses: seq<Analysis>)
    requires |analyses| <= |frames|
  {
    analyses == []
    || (IsSafeResult(e, frames[|analyses| - 1], Last(analyses)) && AllSafe(e, frames, Init(analyses)))
  }

  lemma {:induction false} AllSafeStep(e: Engine, frames: seq<string>, analyses: seq<Analysis>, a: Analysis)
    requires |analyses| < |frames| && AllSafe(e, frames, analyses)
    requires IsSafeResult(e, frames[|analyses|], a)
    ensures AllSafe(e, frames, analyses + [a])
  {
    assert Init(analyses + [a]) == analyses;
  }

  lemma {:induction false} AllSafeAt(e: Engine, frames: seq<string>, analyses: seq<Analysis>, i: nat)
    requires i < |analyses| <= |frames| && AllSafe(e, frames, analyses)
    ensures IsSafeResult(e, frames[i], analyses[i])
  {
    if i < |analyses| - 1 {
      AllSafeAt(e, frames, Init(analyses), i);
    }
  }

  /** The engine's answer for each of the frames. */
  method AnalyseFrames(e: Engine, frames: seq<string>) returns (analyses: seq<Analysis>)
    requires e.Valid()
    ensures |analyses| == |frames| && AllSafe(e, frames, analyses)
  {
    analyses := [];
    for i := 0 to |frames|
      invariant |analyses| == i && AllSafe(e, frames, analyses)
    {
      var a := RedactDataUrl(e, frames[i]);
      AllSafeStep(e, frames, analyses, a);
      analyses := analyses + [a];
    }
  }

  /** MAIN: live frames end to end. Whatever goes on to the model is a safe copy of one of the captured
      frames: a frame in which something is sensitive never goes on as it was captured. */
  method RedactLiveFrames(e: Engine, frames: seq<string>) returns (r: Frames)
    requires e.Valid()
    ensures !r.threw ==> r.redacted && |r.frames| + r.dropped == |frames|
    ensures forall u :: u in r.frames ==> exists url :: url in frames && SafeCopy(u, url, e)
  {
    var analyses := AnalyseFrames(e, frames);
    var ocr := (i: nat) => if i < |analyses| then analyses[i] else RedactionError;
    r := RedactFrames(frames, Some(ocr));
    if !r.threw {
      forall i | 0 <= i < |frames|
        ensures IsSafeResult(e, frames[i], ocr(i))
      {
        AllSafeAt(e, frames, analyses, i);
      }
      FramesAreSafeCopies(frames, ocr, e);
    }
  }

  lemma {:induction false} FramesAreSafeCopies(frames: seq<string>, ocr: nat -> Analysis, e: Engine)
    requires forall i :: 0 <= i < |frames| ==> IsSafeResult(e, frames[i], ocr(i))
    ensures forall u :: u in CertifiedFrames(frames, ocr, |frames|) ==>
              exists url :: url in frames && SafeCopy(u, url, e)
  {
    forall u | u in CertifiedFrames(frames, ocr, |frames|)
      ensures exists url :: url in frames && SafeCopy(u, url, e)
    {
      FramesAreResults(frames, ocr, |frames|, u);
      var i :| 0 <= i < |frames| && ocr(i).Certified? && u == OutUrl(frames[i], ocr(i));
      assert frames[i] in frames;
    }
  }

  // ---------------------------------------------------------------- what a safe copy shows

  /** Some sensitive word touches the pixel. */
  ghost predicate OnSensitiveWord(words: seq<Word>, detect: Detector, px: int, py: int) {
    exists k, i :: 0 <= k < |Lines(words)| && 0 <= i < |Lines(words)[k].words|
                   && SensitiveWord(words, detect, k, i) && Touches(px, py, Lines(words)[k].words[i].at)
  }

  ghost predicate SensitiveWord(words: seq<Word>, detect: Detector, k: nat, i: nat)
    requires k < |Lines(words)| && i < |Lines(words)[k].words|
  {
    Complete(Lines(words)[k]) && Sensitive(Lines(words)[k], i, detect)
  }

  lemma {:induction false} BoxesAreSensitiveWords(words: seq<Word>, detect: Detector, px: int, py: int)
    ensures TouchesAny(px, py, BoxesOf(words, detect)) <==> OnSensitiveWord(words, detect, px, py)
  {
    AllLinesComplete(words);
    var lines, boxes := Lines(words), BoxesOf(words, detect);
    if TouchesAny(px, py, boxes) {
      var b :| 0 <= b < |boxes| && Touches(px, py, boxes[b].at);
      assert Boxed(boxes, boxes[b].at);
      BoxedIff(lines, detect, boxes[b].at);
      var k :| 0 <= k < |lines| && SensitiveAt(lines[k], boxes[b].at, detect);
      var i :| 0 <= i < |lines[k].words| && lines[k].words[i].at == boxes[b].at && Sensitive(lines[k], i, detect);
      assert SensitiveWord(words, detect, k, i);
    }
    if OnSensitiveWord(words, detect, px, py) {
      var k, i :| 0 <= k < |lines| && 0 <= i < |lines[k].words|
                  && SensitiveWord(words, detect, k, i) && Touches(px, py, lines[k].words[i].at);
      assert SensitiveAt(lines[k], lines[k].words[i].at, detect);
      BoxedIff(lines, detect, lines[k].words[i].at);
    }
  }

  /** MAIN: a safe copy shows black on every pixel that a sensitive word touches, and the captured image on
      every other; a copy that is the image itself has no sensitive word at all. */
  lemma {:induction false} SafeCopyShows(stored: string, url: string, e: Engine)
    requires SafeCopy(stored, url, e)
    ensures e.scan(url).w >= 1280 && e.scan(url).h >= 600
    ensures var s := e.scan(url);
            var words := s.recognized.value;
            || (stored == url && forall px, py :: !OnSensitiveWord(words, e.detect, px, py))
            || exists after ::
                 && EncodedFrom(stored, url, after, e) && IsBitmap(after, s.w, s.h)
                 && forall px: nat, py: nat :: px < s.w && py < s.h ==>
                      Pixel(after, s.w, s.h, px, py) ==
                      if OnSensitiveWord(words, e.detect, px, py) then Rgba(0, 0, 0, 255)
                      else Pixel(s.data, s.w, s.h, px, py)
  {
    var s := e.scan(url);
    var words := s.recognized.value;
    if e.Boxes(url) == [] {
      forall px, py
        ensures !OnSensitiveWord(words, e.detect, px, py)
      {
        BoxesAreSensitiveWords(words, e.detect, px, py);
      }
    } else {
      var after :| EncodedFrom(stored, url, after, e);
      forall px: nat, py: nat | px < s.w && py < s.h
        ensures Pixel(after, s.w, s.h, px, py) ==
                if OnSensitiveWord(words, e.detect, px, py) then Rgba(0, 0, 0, 255)
                else Pixel(s.data, s.w, s.h, px, py)
      {
        BoxesAreSensitiveWords(words, e.detect, px, py);
      }
    }
  }
}
