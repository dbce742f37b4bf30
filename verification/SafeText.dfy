/** The text that may be indexed: what OCR read, without the masked words. */
module SafeText {
  import opened Common
  import opened VisualRedaction

  const MAX_SAFE_TEXT := 50_000

  function Kept(words: seq<Word>, boxes: seq<Box>): seq<Word> {
    if words == [] then []
    else Kept(Init(words), boxes) + if Boxed(boxes, Last(words).at) then [] else [Last(words)]
  }

  /** The kept words of one line, joined by spaces. */
  function KeptText(l: Line, boxes: seq<Box>): string {
    Layout(Kept(l.words, boxes)).text
  }

  /** The non-empty lines, joined by newlines. */
  function Body(lines: seq<Line>, boxes: seq<Box>): string {
    if lines == [] then ""
    else Joined(Body(Init(lines), boxes), KeptText(Last(lines), boxes))
  }

  function Joined(front: string, text: string): string {
    if text == "" then front else if front == "" then text else front + "\n" + text
  }

  /** `safeOcrText` */
  function SafeOcrText(words: seq<Word>, boxes: seq<Box>): string {
    var body := Body(Lines(words), boxes);
    body[..if |body| < MAX_SAFE_TEXT then |body| else MAX_SAFE_TEXT]
  }

  // ---------------------------------------------------------------- which words are kept

  lemma {:induction false} KeptIff(words: seq<Word>, boxes: seq<Box>, w: Word)
    ensures w in Kept(words, boxes) <==> w in words && !Boxed(boxes, w.at)
  {
    if words != [] {
      KeptIff(Init(words), boxes, w);
      assert words == Init(words) + [Last(words)];
    }
  }

  /** MAIN: a word of a line is kept exactly when no sensitive word has its coordinates; in particular no
      word that a sensitive range overlaps is kept. */
  lemma {:induction false} KeptIffNotSensitive(words: seq<Word>, detect: Detector, k: nat, w: Word)
    requires k < |Lines(words)|
    ensures AllComplete(Lines(words))
    ensures w in Kept(Lines(words)[k].words, BoxesOf(words, detect)) <==>
            w in Lines(words)[k].words && !SensitiveOnSome(Lines(words), w.at, detect)
  {
    AllLinesComplete(words);
    KeptIff(Lines(words)[k].words, BoxesOf(words, detect), w);
    BoxedIff(Lines(words), detect, w.at);
  }

  predicate OccursAt(text: string, s: string, p: nat) {
    p + |text| <= |s| && s[p..p + |text|] == text
  }

  ghost predicate Occurs(text: string, s: string) {
    exists p: nat :: OccursAt(text, s, p)
  }

  lemma {:induction false} OccursBefore(text: string, s: string, rest: string)
    requires Occurs(text, s)
    ensures Occurs(text, s + rest)
  {
    var p: nat :| OccursAt(text, s, p);
    assert (s + rest)[p..p + |text|] == s[p..p + |text|];
    assert OccursAt(text, s + rest, p);
  }

  lemma {:induction false} OccursAfter(text: string, front: string)
    ensures Occurs(text, front + text)
  {
    assert OccursAt(text, front + text, |front|);
  }

  /** What is kept of a line appears in one piece. */
  lemma {:induction false} KeptLineOccurs(lines: seq<Line>, boxes: seq<Box>, k: nat)
    requires k < |lines|
    ensures Occurs(KeptText(lines[k], boxes), Body(lines, boxes))
  {
    var front, text, body := Body(Init(lines), boxes), KeptText(Last(lines), boxes), Body(lines, boxes);
    if k == |lines| - 1 {
      OccursAfter(text, body[..|body| - |text|]);
      assert body == body[..|body| - |text|] + text;
    } else {
      KeptLineOccurs(Init(lines), boxes, k);
      OccursBefore(KeptText(lines[k], boxes), front, body[|front|..]);
      assert body == front + body[|front|..];
    }
  }

  lemma {:induction false} JoinedAssociates(a: string, b: string, c: string)
    ensures Joined(Joined(a, b), c) == Joined(a, Joined(b, c))
  {
    assert (a + "\n" + b) + "\n" + c == a + "\n" + (b + "\n" + c);
  }

  /** The text of two runs of lines is the text of the first, a newline, and the text of the second;
      a run without text adds nothing. */
  lemma {:induction false} BodyMeans(a: seq<Line>, b: seq<Line>, boxes: seq<Box>)
    ensures Body(a, boxes) != "" && Body(b, boxes) != "" ==>
              Body(a + b, boxes) == Body(a, boxes) + "\n" + Body(b, boxes)
    ensures Body(a, boxes) == "" ==> Body(a + b, boxes) == Body(b, boxes)
    ensures Body(b, boxes) == "" ==> Body(a + b, boxes) == Body(a, boxes)
  {
    BodyAppend(a, b, boxes);
  }

  lemma {:induction false} BodyAppend(a: seq<Line>, b: seq<Line>, boxes: seq<Box>)
    ensures Body(a + b, boxes) == Joined(Body(a, boxes), Body(b, boxes))
  {
    if b == [] {
      assert a + b == a;
    } else {
      var front, l := Init(b), Last(b);
      LastSplitsOff(a, b);
      calc {
        Body(a + b, boxes);
      ==  { BodyOneMore(a + front, l, boxes); }
        Joined(Body(a + front, boxes), KeptText(l, boxes));
      ==  { BodyAppend(a, front, boxes); }
        Joined(Joined(Body(a, boxes), Body(front, boxes)), KeptText(l, boxes));
      ==  { JoinedAssociates(Body(a, boxes), Body(front, boxes), KeptText(l, boxes)); }
        Joined(Body(a, boxes), Joined(Body(front, boxes), KeptText(l, boxes)));
      ==  { BodyOneMore(front, l, boxes); }
        Joined(Body(a, boxes), Body(b, boxes));
      }
    }
  }

  lemma {:induction false} BodyOneMore(lines: seq<Line>, l: Line, boxes: seq<Box>)
    ensures Body(lines + [l], boxes) == Joined(Body(lines, boxes), KeptText(l, boxes))
  {
    assert Init(lines + [l]) == lines;
  }

  /** Only kept words and single spaces between them make up the text of one line. */
  lemma {:induction false} KeptTextIsAligned(words: seq<Word>, k: nat, boxes: seq<Box>)
    requires k < |Lines(words)|
    ensures var l := Lines(words)[k];
            && Body([l], boxes) == KeptText(l, boxes) == Layout(Kept(l.words, boxes)).text
            && Layout(Kept(l.words, boxes)).words == Kept(l.words, boxes)
            && Aligned(Layout(Kept(l.words, boxes)))
  {
    LinesHoldTheWords(words);
    var l := Lines(words)[k];
    assert LaidOut(l);
    KeptHasNoBlanks(l.words, boxes);
    LayoutIsAligned(Kept(l.words, boxes));
    assert Init([l]) == [];
  }

  lemma {:induction false} KeptHasNoBlanks(words: seq<Word>, boxes: seq<Box>)
    requires NoBlanks(words)
    ensures NoBlanks(Kept(words, boxes))
  {
    if words != [] {
      KeptHasNoBlanks(Init(words), boxes);
    }
  }

  /** The indexed text is the first 50,000 characters of the lines' text. */
  lemma {:induction false} SafeTextMeans(words: seq<Word>, boxes: seq<Box>)
    ensures SafeOcrText(words, boxes) <= Body(Lines(words), boxes)
    ensures |SafeOcrText(words, boxes)| <= 50_000
    ensures |SafeOcrText(words, boxes)| < 50_000 ==> SafeOcrText(words, boxes) == Body(Lines(words), boxes)
  {}

  // ---------------------------------------------------------------- nothing leaks

  predicate Twins(v: Word, w: Word, boxes: seq<Box>) {
    v.at == w.at && (Blank(v.text) <==> Blank(w.text)) && (Boxed(boxes, v.at) || v.text == w.text)
  }

  /** Two readings of the same image that differ only in what the masked words say. */
  predicate Alike(a: seq<Word>, b: seq<Word>, boxes: seq<Box>) {
    |a| == |b| && forall i :: 0 <= i < |a| ==> Twins(a[i], b[i], boxes)
  }

  ghost predicate Geometric(cmp: Order) {
    forall a: Word, b: Word, c: Word, d: Word :: a.at == c.at && b.at == d.at ==> cmp(a, b) == cmp(c, d)
  }

  lemma {:induction false} AlikeFront(a: seq<Word>, b: seq<Word>, boxes: seq<Box>)
    requires Alike(a, b, boxes) && a != []
    ensures Alike(Init(a), Init(b), boxes) && Twins(Last(a), Last(b), boxes)
  {
  }

  lemma {:induction false} AlikeVisible(a: seq<Word>, b: seq<Word>, boxes: seq<Box>)
    requires Alike(a, b, boxes)
    ensures Alike(Visible(a), Visible(b), boxes)
  {
    if a != [] {
      AlikeFront(a, b, boxes);
      AlikeVisible(Init(a), Init(b), boxes);
    }
  }

  lemma {:induction false} AlikeInsert(a: seq<Word>, b: seq<Word>, v: Word, w: Word, boxes: seq<Box>, cmp: Order)
    requires Alike(a, b, boxes) && Twins(v, w, boxes) && Geometric(cmp)
    ensures Alike(Insert(a, v, cmp), Insert(b, w, cmp), boxes)
  {
    if a != [] {
      AlikeFront(a, b, boxes);
      AlikeInsert(Init(a), Init(b), v, w, boxes, cmp);
      assert cmp(Last(a), v) == cmp(Last(b), w);
    }
  }

  lemma {:induction false} AlikeSorted(a: seq<Word>, b: seq<Word>, boxes: seq<Box>, cmp: Order)
    requires Alike(a, b, boxes) && Geometric(cmp)
    ensures Alike(Sorted(a, cmp), Sorted(b, cmp), boxes)
  {
    if a != [] {
      AlikeFront(a, b, boxes);
      AlikeSorted(Init(a), Init(b), boxes, cmp);
      AlikeInsert(Sorted(Init(a), cmp), Sorted(Init(b), cmp), Last(a), Last(b), boxes, cmp);
    }
  }

  ghost predicate AlikeGroups(g: seq<seq<Word>>, h: seq<seq<Word>>, boxes: seq<Box>) {
    |g| == |h| && forall k :: 0 <= k < |g| ==> Alike(g[k], h[k], boxes)
  }

  lemma {:induction false} AlikeAdd(g: seq<seq<Word>>, h: seq<seq<Word>>, v: Word, w: Word, boxes: seq<Box>)
    requires AlikeGroups(g, h, boxes) && Twins(v, w, boxes)
    ensures AlikeGroups(AddToGroups(g, v), AddToGroups(h, w), boxes)
  {
    if g != [] {
      assert Alike(Last(g), Last(h), boxes);
      assert Alike(Last(g) + [v], Last(h) + [w], boxes);
      if Last(g) != [] {
        assert Twins(Last(g)[0], Last(h)[0], boxes);
        assert SameLine(Last(g)[0], v) == SameLine(Last(h)[0], w);
      }
    }
    assert Alike([v], [w], boxes);
  }

  lemma {:induction false} AlikeGrouped(a: seq<Word>, b: seq<Word>, boxes: seq<Box>)
    requires Alike(a, b, boxes)
    ensures AlikeGroups(Groups(a), Groups(b), boxes)
  {
    if a != [] {
      AlikeFront(a, b, boxes);
      AlikeGrouped(Init(a), Init(b), boxes);
      AlikeAdd(Groups(Init(a)), Groups(Init(b)), Last(a), Last(b), boxes);
    }
  }

  lemma {:induction false} AlikeKept(a: seq<Word>, b: seq<Word>, boxes: seq<Box>)
    requires Alike(a, b, boxes)
    ensures Kept(a, boxes) == Kept(b, boxes)
  {
    if a != [] {
      AlikeFront(a, b, boxes);
      AlikeKept(Init(a), Init(b), boxes);
    }
  }

  lemma {:induction false} AlikeLine(a: seq<Word>, b: seq<Word>, boxes: seq<Box>)
    requires Alike(a, b, boxes) && NoBlanks(a) && NoBlanks(b)
    ensures KeptText(Layout(Sorted(a, BY_COLUMN)), boxes) == KeptText(Layout(Sorted(b, BY_COLUMN)), boxes)
  {
    AlikeSorted(a, b, boxes, BY_COLUMN);
    SortedKeepsNoBlanks(a, BY_COLUMN);
    SortedKeepsNoBlanks(b, BY_COLUMN);
    LayoutHasTheWords(Sorted(a, BY_COLUMN));
    LayoutHasTheWords(Sorted(b, BY_COLUMN));
    AlikeKept(Sorted(a, BY_COLUMN), Sorted(b, BY_COLUMN), boxes);
  }

  lemma {:induction false} AlikeBody(g: seq<seq<Word>>, h: seq<seq<Word>>, boxes: seq<Box>)
    requires AlikeGroups(g, h, boxes) && NoBlanks(Flat(g)) && NoBlanks(Flat(h))
    ensures Body(LayOut(g), boxes) == Body(LayOut(h), boxes)
  {
    if g != [] {
      FlatFront(g);
      FlatFront(h);
      AlikeBody(Init(g), Init(h), boxes);
      assert Alike(Last(g), Last(h), boxes);
      AlikeLine(Last(g), Last(h), boxes);
      assert Init(LayOut(g)) == LayOut(Init(g));
      assert Init(LayOut(h)) == LayOut(Init(h));
    }
  }

  lemma {:induction false} VisibleGroups(a: seq<Word>)
    ensures NoBlanks(Flat(Groups(Sorted(Visible(a), BY_ROW))))
  {
    VisibleHasNoBlanks(a);
    SortedKeepsNoBlanks(Visible(a), BY_ROW);
    GroupsCutTheWords(Sorted(Visible(a), BY_ROW));
  }

  /** MAIN: whatever the masked words said, the indexed text would be the same. */
  lemma {:induction false} MaskedWordsDoNotLeak(a: seq<Word>, b: seq<Word>, boxes: seq<Box>)
    requires Alike(a, b, boxes)
    ensures SafeOcrText(a, boxes) == SafeOcrText(b, boxes)
  {
    AlikeVisible(a, b, boxes);
    AlikeSorted(Visible(a), Visible(b), boxes, BY_ROW);
    AlikeGrouped(Sorted(Visible(a), BY_ROW), Sorted(Visible(b), BY_ROW), boxes);
    VisibleGroups(a);
    VisibleGroups(b);
    AlikeBody(Groups(Sorted(Visible(a), BY_ROW)), Groups(Sorted(Visible(b), BY_ROW)), boxes);
  }
}
