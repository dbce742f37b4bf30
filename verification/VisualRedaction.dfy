/** From the words an OCR engine reads to the boxes that must be masked and the text that may be indexed. */
module VisualRedaction {
  import opened Common
  import opened PayloadTrees

  datatype Rect = Rect(x0: real, y0: real, x1: real, y1: real)

  datatype Word = Word(text: string, at: Rect)

  /** `text.trim().length == 0` */
  predicate Blank(s: string) {
    forall i :: 0 <= i < |s| ==> IsSpace(s[i])
  }

  function Visible(words: seq<Word>): seq<Word> {
    if words == [] then []
    else Visible(Init(words)) + if Blank(Last(words).text) then [] else [Last(words)]
  }

  predicate NoBlanks(words: seq<Word>) {
    forall i :: 0 <= i < |words| ==> !Blank(words[i].text)
  }

  lemma {:induction false} VisibleHasNoBlanks(words: seq<Word>)
    ensures NoBlanks(Visible(words))
  {
    if words != [] {
      VisibleHasNoBlanks(Init(words));
    }
  }

  /** A word is dropped exactly when it is all whitespace; the others stay, in their order. */
  lemma {:induction false} VisibleMeans(words: seq<Word>, w: Word)
    ensures multiset(Visible(words))[w] ==
            if forall i :: 0 <= i < |w.text| ==> IsWhitespace(w.text[i] as int) then 0 else multiset(words)[w]
  {
    if words != [] {
      assert words == Init(words) + [Last(words)];
      VisibleMeans(Init(words), w);
    }
  }

  lemma {:induction false} LastSplitsOff<T>(a: seq<T>, b: seq<T>)
    requires b != []
    ensures b == Init(b) + [Last(b)] && a + b == a + Init(b) + [Last(b)]
  {}

  lemma {:induction false} VisibleOneMore(words: seq<Word>, w: Word)
    ensures Visible(words + [w]) == Visible(words) + if Blank(w.text) then [] else [w]
  {
    assert Init(words + [w]) == words;
  }

  lemma {:induction false} VisibleAppend(a: seq<Word>, b: seq<Word>)
    ensures Visible(a + b) == Visible(a) + Visible(b)
  {
    if b == [] {
      assert a + b == a;
    } else {
      var front, w := Init(b), Last(b);
      VisibleAppend(a, front);
      VisibleOneMore(a + front, w);
      VisibleOneMore(front, w);
      LastSplitsOff(a, b);
    }
  }

  // ---------------------------------------------------------------- stable sorting

  type Order = (Word, Word) -> real

  function Mid(w: Word): real {
    (w.at.y0 + w.at.y1) / 2.0
  }

  const BY_ROW: Order := (a: Word, b: Word) => if Mid(a) != Mid(b) then Mid(a) - Mid(b) else a.at.x0 - b.at.x0
  const BY_COLUMN: Order := (a: Word, b: Word) => a.at.x0 - b.at.x0

  ghost predicate IsOrder(cmp: Order) {
    && (forall a, b :: cmp(a, b) > 0.0 <==> cmp(b, a) < 0.0)
    && (forall a, b, c :: cmp(a, b) <= 0.0 && cmp(b, c) <= 0.0 ==> cmp(a, c) <= 0.0)
  }

  lemma {:induction false} BothAreOrders()
    ensures IsOrder(BY_ROW) && IsOrder(BY_COLUMN)
  {
  }

  /** Array.prototype.sort: words that compare equal stay in their order. */
  function Sorted(words: seq<Word>, cmp: Order): seq<Word> {
    if words == [] then [] else Insert(Sorted(Init(words), cmp), Last(words), cmp)
  }

  function Insert(s: seq<Word>, w: Word, cmp: Order): seq<Word> {
    if s == [] || cmp(Last(s), w) <= 0.0 then s + [w] else Insert(Init(s), w, cmp) + [Last(s)]
  }

  ghost predicate InOrder(s: seq<Word>, cmp: Order) {
    forall i, j :: 0 <= i < j < |s| ==> cmp(s[i], s[j]) <= 0.0
  }

  function Ties(s: seq<Word>, w: Word, cmp: Order): seq<Word> {
    if s == [] then [] else Ties(Init(s), w, cmp) + if cmp(Last(s), w) == 0.0 then [Last(s)] else []
  }

  /** The sort is a permutation and in order ... */
  lemma {:induction false} SortLaws(words: seq<Word>, cmp: Order)
    requires IsOrder(cmp)
    ensures multiset(Sorted(words, cmp)) == multiset(words)
    ensures InOrder(Sorted(words, cmp), cmp)
  {
    if words != [] {
      SortLaws(Init(words), cmp);
      InsertLaws(Sorted(Init(words), cmp), Last(words), cmp);
      MultisetSplits(words);
    }
  }

  lemma {:induction false} MultisetSplits(words: seq<Word>)
    requires words != []
    ensures multiset(words) == multiset(Init(words)) + multiset{Last(words)}
  {
    assert words == Init(words) + [Last(words)];
  }

  /** ... and stable: words that tie with w keep their order. */
  lemma {:induction false} SortIsStable(words: seq<Word>, w: Word, cmp: Order)
    requires IsOrder(cmp)
    ensures Ties(Sorted(words, cmp), w, cmp) == Ties(words, w, cmp)
  {
    if words != [] {
      SortIsStable(Init(words), w, cmp);
      InsertIsStable(Sorted(Init(words), cmp), Last(words), w, cmp);
    }
  }

  lemma {:induction false} InsertLaws(s: seq<Word>, x: Word, cmp: Order)
    requires IsOrder(cmp) && InOrder(s, cmp)
    ensures multiset(Insert(s, x, cmp)) == multiset(s) + multiset{x}
    ensures InOrder(Insert(s, x, cmp), cmp)
  {
    InsertAdds(s, x, cmp);
    if s != [] && cmp(Last(s), x) > 0.0 {
      InsertLaws(Init(s), x, cmp);
      InsertAdds(Init(s), x, cmp);
      var front := Insert(Init(s), x, cmp);
      forall i | 0 <= i < |front|
        ensures cmp(front[i], Last(s)) <= 0.0
      {
        assert front[i] in multiset(front);
        assert front[i] == x || front[i] in Init(s);
      }
      AppendKeepsOrder(front, Last(s), cmp);
    } else if s != [] {
      AppendKeepsOrder(s, x, cmp);
    }
  }

  lemma {:induction false} InsertAdds(s: seq<Word>, x: Word, cmp: Order)
    ensures multiset(Insert(s, x, cmp)) == multiset(s) + multiset{x}
  {
    if s != [] {
      assert s == Init(s) + [Last(s)];
      InsertAdds(Init(s), x, cmp);
    }
  }

  lemma {:induction false} AppendKeepsOrder(s: seq<Word>, x: Word, cmp: Order)
    requires IsOrder(cmp) && InOrder(s, cmp) && s != []
    requires cmp(Last(s), x) <= 0.0 || forall i :: 0 <= i < |s| ==> cmp(s[i], x) <= 0.0
    ensures InOrder(s + [x], cmp)
  {
    forall i | 0 <= i < |s|
      ensures cmp(s[i], x) <= 0.0
    {
      if i < |s| - 1 {
        assert cmp(s[i], Last(s)) <= 0.0;
      }
    }
  }

  lemma {:induction false} InsertIsStable(s: seq<Word>, x: Word, w: Word, cmp: Order)
    requires IsOrder(cmp)
    ensures Ties(Insert(s, x, cmp), w, cmp) == Ties(s, w, cmp) + if cmp(x, w) == 0.0 then [x] else []
  {
    if s == [] || cmp(Last(s), x) <= 0.0 {
      assert Init(s + [x]) == s;
    } else {
      InsertIsStable(Init(s), x, w, cmp);
      assert Init(Insert(Init(s), x, cmp) + [Last(s)]) == Insert(Init(s), x, cmp);
    }
  }

  // ---------------------------------------------------------------- grouping words into lines

  function Abs(r: real): real { if r < 0.0 then -r else r }

  function Max(a: real, b: real): real { if a < b then b else a }

  function Height(w: Word): real { w.at.y1 - w.at.y0 }

  predicate SameLine(first: Word, w: Word) {
    Abs(Mid(w) - Mid(first)) <= Max(Height(first), Height(w)) * 0.7
  }

  /** Two words share a line when their middles are at most seven tenths of the taller one apart. */
  lemma {:induction false} SameLineMeans(first: Word, w: Word)
    ensures var twice := (w.at.y0 + w.at.y1) - (first.at.y0 + first.at.y1);
            SameLine(first, w) <==>
            && (5.0 * twice <= 7.0 * (first.at.y1 - first.at.y0) || 5.0 * twice <= 7.0 * (w.at.y1 - w.at.y0))
            && (-5.0 * twice <= 7.0 * (first.at.y1 - first.at.y0) || -5.0 * twice <= 7.0 * (w.at.y1 - w.at.y0))
  {}

  /** Rows come from top to bottom by their middles and then from left to right, columns from left to right. */
  lemma {:induction false} OrdersMean(a: Word, b: Word)
    ensures BY_ROW(a, b) <= 0.0 <==>
            || a.at.y0 + a.at.y1 < b.at.y0 + b.at.y1
            || (a.at.y0 + a.at.y1 == b.at.y0 + b.at.y1 && a.at.x0 <= b.at.x0)
    ensures BY_COLUMN(a, b) <= 0.0 <==> a.at.x0 <= b.at.x0
  {}

  function AddToGroups(groups: seq<seq<Word>>, w: Word): seq<seq<Word>> {
    if groups != [] && Last(groups) != [] && SameLine(Last(groups)[0], w)
    then Init(groups) + [Last(groups) + [w]]
    else groups + [[w]]
  }

  function Groups(words: seq<Word>): seq<seq<Word>> {
    if words == [] then [] else AddToGroups(Groups(Init(words)), Last(words))
  }

  function Flat(groups: seq<seq<Word>>): seq<Word> {
    if groups == [] then [] else Flat(Init(groups)) + Last(groups)
  }

  ghost predicate WellGrouped(groups: seq<seq<Word>>) {
    && (forall k :: 0 <= k < |groups| ==> groups[k] != [])
    && (forall k, i :: 0 <= k < |groups| && 0 < i < |groups[k]| ==> SameLine(groups[k][0], groups[k][i]))
    && (forall k, l :: 0 <= k && l == k + 1 < |groups| ==> !SameLine(groups[k][0], groups[l][0]))
  }

  /** The groups cut the sorted words into consecutive runs, each as long as its first word allows. */
  lemma {:induction false} GroupsCutTheWords(words: seq<Word>)
    ensures Flat(Groups(words)) == words && WellGrouped(Groups(words))
  {
    GroupsFlatten(words);
    if words != [] {
      GroupsCutTheWords(Init(words));
      AddKeepsWellGrouped(Groups(Init(words)), Last(words));
    }
  }

  lemma {:induction false} GroupsFlatten(words: seq<Word>)
    ensures Flat(Groups(words)) == words
  {
    if words != [] {
      GroupsFlatten(Init(words));
      assert words == Init(words) + [Last(words)];
      AddFlattens(Groups(Init(words)), Last(words));
    }
  }

  lemma {:induction false} AddFlattens(groups: seq<seq<Word>>, w: Word)
    ensures Flat(AddToGroups(groups, w)) == Flat(groups) + [w]
  {
    var next := AddToGroups(groups, w);
    if groups != [] && Last(groups) != [] && SameLine(Last(groups)[0], w) {
      assert Init(next) == Init(groups);
    } else {
      assert Init(next) == groups;
    }
  }

  lemma {:induction false} AddKeepsWellGrouped(groups: seq<seq<Word>>, w: Word)
    requires WellGrouped(groups)
    ensures WellGrouped(AddToGroups(groups, w))
  {
    var next := AddToGroups(groups, w);
    if groups != [] && Last(groups) != [] && SameLine(Last(groups)[0], w) {
      var grown := Last(groups) + [w];
      assert forall k :: 0 <= k < |next| - 1 ==> next[k] == groups[k];
      assert forall i :: 0 < i < |grown| ==> SameLine(grown[0], grown[i]);
      assert grown[0] == Last(groups)[0];
    } else {
      assert forall k :: 0 <= k < |next| - 1 ==> next[k] == groups[k];
    }
  }

  // ---------------------------------------------------------------- the text of a line

  /** `words[i]` covers `text[starts[i]..ends[i]]`. */
  datatype Line = Line(words: seq<Word>, text: string, starts: seq<nat>, ends: seq<nat>)

  function AppendWord(l: Line, w: Word): Line {
    var text := if l.text != "" then l.text + " " else l.text;
    Line(l.words + [w], text + w.text, l.starts + [|text|], l.ends + [|text| + |w.text|])
  }

  /** Words laid out from left to right. */
  function Layout(words: seq<Word>): Line {
    if words == [] then Line([], "", [], []) else AppendWord(Layout(Init(words)), Last(words))
  }

  predicate Complete(l: Line) {
    |l.starts| == |l.ends| == |l.words|
  }

  predicate Placed(l: Line, i: nat)
    requires Complete(l) && i < |l.words|
  {
    l.starts[i] < l.ends[i] <= |l.text| && l.text[l.starts[i]..l.ends[i]] == l.words[i].text
  }

  /** One separator between the i-th word and the next. */
  predicate Gap(l: Line, i: nat)
    requires Complete(l) && i < |l.words| - 1
  {
    l.starts[i + 1] == l.ends[i] + 1 && l.ends[i] < |l.text| && l.text[l.ends[i]] == ' '
  }

  predicate Covered(l: Line)
    requires Complete(l)
  {
    if l.words == [] then l.text == "" else l.starts[0] == 0 && Last(l.ends) == |l.text|
  }

  /** Each word is where the offsets say, the words follow each other with one separator, and the
      whole text is covered. */
  ghost predicate Aligned(l: Line) {
    && Complete(l) && Covered(l)
    && (forall i :: 0 <= i < |l.words| ==> Placed(l, i))
    && (forall i :: 0 <= i < |l.words| - 1 ==> Gap(l, i))
  }

  lemma {:induction false} WordStays(l: Line, w: Word, i: nat)
    requires Aligned(l) && !Blank(w.text) && i <= |l.words|
    ensures Placed(AppendWord(l, w), i)
  {
    var next := AppendWord(l, w);
    if i < |l.words| {
      assert Placed(l, i);
      assert next.text[..|l.text|] == l.text;
      assert next.text[next.starts[i]..next.ends[i]] == next.text[..|l.text|][next.starts[i]..next.ends[i]];
    }
  }

  lemma {:induction false} GapStays(l: Line, w: Word, i: nat)
    requires Aligned(l) && !Blank(w.text) && i < |l.words|
    ensures Gap(AppendWord(l, w), i)
  {
    assert Placed(l, i);
    if i + 1 < |l.words| {
      assert Gap(l, i);
      assert Placed(l, i + 1);
    }
  }

  lemma {:induction false} AppendKeepsAligned(l: Line, w: Word)
    requires Aligned(l) && !Blank(w.text)
    ensures Aligned(AppendWord(l, w))
  {
    var next := AppendWord(l, w);
    assert l.words != [] ==> Placed(l, 0);
    assert Covered(next);
    forall i | 0 <= i < |next.words|
      ensures Placed(next, i)
    {
      WordStays(l, w, i);
    }
    forall i | 0 <= i < |next.words| - 1
      ensures Gap(next, i)
    {
      GapStays(l, w, i);
    }
  }

  /** MAIN: in the text of a line every word is exactly where its offsets say. */
  lemma {:induction false} LayoutIsAligned(words: seq<Word>)
    requires NoBlanks(words)
    ensures Layout(words).words == words && Aligned(Layout(words))
  {
    LayoutHasTheWords(words);
    if words != [] {
      LayoutIsAligned(Init(words));
      LayoutHasTheWords(Init(words));
      AppendKeepsAligned(Layout(Init(words)), Last(words));
    }
  }

  lemma {:induction false} LayoutHasTheWords(words: seq<Word>)
    requires NoBlanks(words)
    ensures Layout(words).words == words && (words == [] <==> Layout(words).text == "")
  {
    if words != [] {
      LayoutHasTheWords(Init(words));
      assert words == Init(words) + [Last(words)];
      assert Last(words).text != "";
    }
  }

  /** The loop that lays a group out. */
  method BuildLine(group: seq<Word>) returns (l: Line)
    ensures l == Layout(Sorted(group, BY_COLUMN))
  {
    var inOrder := Sorted(group, BY_COLUMN);
    var words: seq<Word>, text: string, starts: seq<nat>, ends: seq<nat> := [], "", [], [];
    for i := 0 to |inOrder|
      invariant Line(words, text, starts, ends) == Layout(inOrder[..i])
    {
      assert Init(inOrder[..i + 1]) == inOrder[..i];
      if text != "" {
        text := text + " ";
      }
      starts := starts + [|text|];
      text := text + inOrder[i].text;
      ends := ends + [|text|];
      words := words + [inOrder[i]];
    }
    assert inOrder[..|inOrder|] == inOrder;
    return Line(words, text, starts, ends);
  }

  // ---------------------------------------------------------------- lines

  function LayOut(groups: seq<seq<Word>>): seq<Line> {
    if groups == [] then [] else LayOut(Init(groups)) + [Layout(Sorted(Last(groups), BY_COLUMN))]
  }

  function Lines(words: seq<Word>): seq<Line> {
    LayOut(Groups(Sorted(Visible(words), BY_ROW)))
  }

  predicate NonEmpty(groups: seq<seq<Word>>) {
    forall k :: 0 <= k < |groups| ==> groups[k] != []
  }

  method PlaceWord(groups: seq<seq<Word>>, w: Word) returns (next: seq<seq<Word>>)
    requires NonEmpty(groups)
    ensures next == AddToGroups(groups, w) && NonEmpty(next)
  {
    if groups != [] && SameLine(Last(groups)[0], w) {
      next := groups[|groups| - 1 := Last(groups) + [w]];
      assert next == Init(groups) + [Last(groups) + [w]];
    } else {
      next := groups + [[w]];
    }
  }

  method GroupWords(sorted: seq<Word>) returns (groups: seq<seq<Word>>)
    ensures groups == Groups(sorted)
  {
    groups := [];
    for i := 0 to |sorted|
      invariant groups == Groups(sorted[..i]) && NonEmpty(groups)
    {
      assert Init(sorted[..i + 1]) == sorted[..i];
      groups := PlaceWord(groups, sorted[i]);
    }
    assert sorted[..|sorted|] == sorted;
  }

  /** `toLines` */
  method ToLines(words: seq<Word>) returns (lines: seq<Line>)
    ensures lines == Lines(words)
  {
    var groups := GroupWords(Sorted(Visible(words), BY_ROW));
    lines := [];
    for i := 0 to |groups|
      invariant lines == LayOut(groups[..i])
    {
      assert Init(groups[..i + 1]) == groups[..i];
      var l := BuildLine(groups[i]);
      lines := lines + [l];
    }
    assert groups[..|groups|] == groups;
  }

  function WordsOf(lines: seq<Line>): seq<Word> {
    if lines == [] then [] else WordsOf(Init(lines)) + Last(lines).words
  }

  ghost predicate WellLaidOut(lines: seq<Line>) {
    forall k :: 0 <= k < |lines| ==>
      LaidOut(lines[k]) && lines[k].words != []
  }

  /** MAIN: the lines hold exactly the non-blank words, each once and at its offsets, from left to right. */
  lemma {:induction false} LinesHoldTheWords(words: seq<Word>)
    ensures multiset(WordsOf(Lines(words))) == multiset(Visible(words))
    ensures WellLaidOut(Lines(words))
  {
    BothAreOrders();
    var sorted := Sorted(Visible(words), BY_ROW);
    SortLaws(Visible(words), BY_ROW);
    GroupsCutTheWords(sorted);
    VisibleHasNoBlanks(words);
    SortedKeepsNoBlanks(Visible(words), BY_ROW);
    LayOutHoldsTheWords(Groups(sorted));
    LayOutIsWell(Groups(sorted));
  }

  /** MAIN: read from top to bottom, the words fall into runs, each as long as its first word's tolerance allows,
      and the k-th line holds the words of the k-th run. */
  lemma {:induction false} LinesAreRuns(words: seq<Word>) returns (groups: seq<seq<Word>>)
    ensures multiset(Flat(groups)) == multiset(Visible(words)) && InOrder(Flat(groups), BY_ROW)
    ensures WellGrouped(groups) && |groups| == |Lines(words)|
    ensures forall k :: 0 <= k < |groups| ==> multiset(Lines(words)[k].words) == multiset(groups[k])
  {
    BothAreOrders();
    var sorted := Sorted(Visible(words), BY_ROW);
    SortLaws(Visible(words), BY_ROW);
    GroupsCutTheWords(sorted);
    VisibleHasNoBlanks(words);
    SortedKeepsNoBlanks(Visible(words), BY_ROW);
    groups := Groups(sorted);
    if groups != [] {
      LayOutAt(groups, 0);
    }
    forall k | 0 <= k < |groups|
      ensures multiset(Lines(words)[k].words) == multiset(groups[k])
    {
      LayOutAt(groups, k);
      GroupHasNoBlanks(groups, k);
      LineLaws(groups[k]);
    }
  }

  lemma {:induction false} LayOutHoldsTheWords(groups: seq<seq<Word>>)
    requires NoBlanks(Flat(groups))
    ensures multiset(WordsOf(LayOut(groups))) == multiset(Flat(groups))
  {
    if groups != [] {
      FlatFront(groups);
      LayOutHoldsTheWords(Init(groups));
      var l := Layout(Sorted(Last(groups), BY_COLUMN));
      LineLaws(Last(groups));
      assert Init(LayOut(groups)) == LayOut(Init(groups));
      assert WordsOf(LayOut(groups)) == WordsOf(LayOut(Init(groups))) + l.words;
    }
  }

  ghost predicate LaidOut(l: Line) {
    Aligned(l) && InOrder(l.words, BY_COLUMN) && NoBlanks(l.words)
  }

  lemma {:induction false} LineLaws(group: seq<Word>)
    requires NoBlanks(group)
    ensures LaidOut(Layout(Sorted(group, BY_COLUMN)))
    ensures multiset(Layout(Sorted(group, BY_COLUMN)).words) == multiset(group)
  {
    BothAreOrders();
    SortLaws(group, BY_COLUMN);
    SortedKeepsNoBlanks(group, BY_COLUMN);
    LayoutIsAligned(Sorted(group, BY_COLUMN));
  }

  lemma {:induction false} LayOutAt(groups: seq<seq<Word>>, k: nat)
    requires k < |groups|
    ensures |LayOut(groups)| == |groups| && LayOut(groups)[k] == Layout(Sorted(groups[k], BY_COLUMN))
  {
    if k < |groups| - 1 {
      LayOutAt(Init(groups), k);
    } else if |groups| > 1 {
      LayOutAt(Init(groups), 0);
    }
  }

  lemma {:induction false} GroupHasNoBlanks(groups: seq<seq<Word>>, k: nat)
    requires NoBlanks(Flat(groups)) && k < |groups|
    ensures NoBlanks(groups[k])
  {
    FlatFront(groups);
    if k < |groups| - 1 {
      GroupHasNoBlanks(Init(groups), k);
    }
  }

  lemma {:induction false} LayOutIsWell(groups: seq<seq<Word>>)
    requires NoBlanks(Flat(groups)) && NonEmpty(groups)
    ensures WellLaidOut(LayOut(groups))
  {
    var lines := LayOut(groups);
    forall k | 0 <= k < |lines|
      ensures LaidOut(lines[k]) && lines[k].words != []
    {
      if groups != [] {
        LayOutAt(groups, 0);
        LayOutAt(groups, k);
        GroupHasNoBlanks(groups, k);
        LineLaws(groups[k]);
        assert |multiset(lines[k].words)| == |multiset(groups[k])|;
      }
    }
  }

  lemma {:induction false} FlatFront(groups: seq<seq<Word>>)
    requires groups != [] && NoBlanks(Flat(groups))
    ensures NoBlanks(Flat(Init(groups))) && NoBlanks(Last(groups))
  {
    assert Flat(groups) == Flat(Init(groups)) + Last(groups);
    NoBlanksSplit(Flat(Init(groups)), Last(groups));
  }

  lemma {:induction false} NoBlanksSplit(a: seq<Word>, b: seq<Word>)
    requires NoBlanks(a + b)
    ensures NoBlanks(a) && NoBlanks(b)
  {
    forall i | 0 <= i < |a|
      ensures !Blank(a[i].text)
    {
      assert (a + b)[i] == a[i];
    }
    forall i | 0 <= i < |b|
      ensures !Blank(b[i].text)
    {
      assert (a + b)[|a| + i] == b[i];
    }
  }

  lemma {:induction false} SortedKeepsNoBlanks(words: seq<Word>, cmp: Order)
    requires NoBlanks(words) && (cmp == BY_ROW || cmp == BY_COLUMN)
    ensures NoBlanks(Sorted(words, cmp))
  {
    BothAreOrders();
    SortLaws(words, cmp);
    var s := Sorted(words, cmp);
    forall i | 0 <= i < |s|
      ensures !Blank(s[i].text)
    {
      assert s[i] in multiset(s);
      assert s[i] in multiset(words);
    }
  }

  // ---------------------------------------------------------------- sensitive words

  /** Characters `start` up to `end` of a line's text. */
  datatype Range = Range(start: nat, end: nat, kind: string)

  /** The text detectors: the sensitive ranges of a line, in the order they are found. */
  type Detector = string -> seq<Range>

  datatype Box = Box(at: Rect, kind: string)

  predicate Overlaps(l: Line, i: nat, r: Range)
    requires i < |l.starts| && i < |l.ends|
  {
    l.starts[i] < r.end && l.ends[i] > r.start
  }

  function WordBoxes(l: Line, r: Range, n: nat): seq<Box>
    requires Complete(l) && n <= |l.words|
  {
    if n == 0 then []
    else WordBoxes(l, r, n - 1) + if Overlaps(l, n - 1, r) then [Box(l.words[n - 1].at, r.kind)] else []
  }

  function RangeBoxes(l: Line, ranges: seq<Range>): seq<Box>
    requires Complete(l)
  {
    if ranges == [] then [] else RangeBoxes(l, Init(ranges)) + WordBoxes(l, Last(ranges), |l.words|)
  }

  predicate AllComplete(lines: seq<Line>) {
    forall k :: 0 <= k < |lines| ==> Complete(lines[k])
  }

  function LineBoxes(lines: seq<Line>, detect: Detector): seq<Box>
    requires AllComplete(lines)
  {
    if lines == [] then [] else LineBoxes(Init(lines), detect) + RangeBoxes(Last(lines), detect(Last(lines).text))
  }

  /** Some sensitive range of the line overlaps its i-th word. */
  ghost predicate Sensitive(l: Line, i: nat, detect: Detector)
    requires Complete(l) && i < |l.words|
  {
    exists j :: 0 <= j < |detect(l.text)| && Overlaps(l, i, detect(l.text)[j])
  }

  predicate InWord(l: Line, i: nat, p: nat)
    requires Complete(l) && i < |l.words|
  {
    l.starts[i] <= p < l.ends[i]
  }

  /** A range that is not empty overlaps a word exactly when they have a character in common. */
  lemma {:induction false} OverlapsMeans(l: Line, i: nat, r: Range)
    requires Complete(l) && i < |l.words| && l.starts[i] < l.ends[i] && r.start < r.end
    ensures Overlaps(l, i, r) <==> exists p :: r.start <= p < r.end && InWord(l, i, p)
  {
    var p := if l.starts[i] < r.start then r.start else l.starts[i];
    if Overlaps(l, i, r) {
      assert InWord(l, i, p);
    }
  }

  predicate IsSeparator(l: Line, i: nat, p: nat)
    requires Complete(l) && i < |l.words|
  {
    p == l.ends[i] && p < |l.text| && l.text[p] == ' '
  }

  /** Every character of a sensitive range is a separator or belongs to a word that overlaps the range. */
  lemma {:induction false} SensitiveCharacters(l: Line, r: Range, p: nat)
    requires Aligned(l) && r.start <= p < r.end && p < |l.text|
    ensures || (exists i :: 0 <= i < |l.words| && InWord(l, i, p) && Overlaps(l, i, r))
            || (exists i :: 0 <= i < |l.words| && IsSeparator(l, i, p))
  {
    CharacterIsSomewhere(l, p, |l.words|);
    if i :| 0 <= i < |l.words| && InWord(l, i, p) {
      assert Overlaps(l, i, r);
    }
  }

  lemma {:induction false} CharacterIsSomewhere(l: Line, p: nat, n: nat)
    requires Aligned(l) && 0 < n <= |l.words| && p < l.ends[n - 1]
    ensures || (exists i :: 0 <= i < |l.words| && InWord(l, i, p))
            || (exists i :: 0 <= i < |l.words| && IsSeparator(l, i, p))
  {
    if n == 1 {
      assert InWord(l, 0, p);
    } else {
      assert Gap(l, n - 2);
      if p < l.ends[n - 2] {
        CharacterIsSomewhere(l, p, n - 1);
      } else if p > l.ends[n - 2] {
        assert InWord(l, n - 1, p);
      } else {
        assert IsSeparator(l, n - 2, p);
      }
    }
  }

  predicate Boxed(boxes: seq<Box>, at: Rect) {
    exists k :: 0 <= k < |boxes| && boxes[k].at == at
  }

  ghost predicate SensitiveAt(l: Line, at: Rect, detect: Detector)
    requires Complete(l)
  {
    exists i :: 0 <= i < |l.words| && l.words[i].at == at && Sensitive(l, i, detect)
  }

  /** A word with these coordinates is sensitive on one of the lines. */
  ghost predicate SensitiveOnSome(lines: seq<Line>, at: Rect, detect: Detector)
    requires AllComplete(lines)
  {
    exists k :: 0 <= k < |lines| && SensitiveAt(lines[k], at, detect)
  }

  lemma {:induction false} SensitiveOneMore(lines: seq<Line>, l: Line, at: Rect, detect: Detector)
    requires AllComplete(lines) && Complete(l)
    ensures AllComplete(lines + [l])
    ensures SensitiveOnSome(lines + [l], at, detect) <==>
            SensitiveOnSome(lines, at, detect) || SensitiveAt(l, at, detect)
  {
    var more := lines + [l];
    assert more[|lines|] == l && forall k :: 0 <= k < |lines| ==> more[k] == lines[k];
  }

  /** MAIN: the boxes are exactly those of the words that some sensitive range overlaps. */
  lemma {:induction false} BoxedIff(lines: seq<Line>, detect: Detector, at: Rect)
    requires AllComplete(lines)
    ensures Boxed(LineBoxes(lines, detect), at) <==> SensitiveOnSome(lines, at, detect)
  {
    if lines != [] {
      var l := Last(lines);
      BoxedIff(Init(lines), detect, at);
      LineBoxedIff(l, detect, at);
      BoxedConcat(LineBoxes(Init(lines), detect), RangeBoxes(l, detect(l.text)), at);
      SensitiveOneMore(Init(lines), l, at, detect);
      assert Init(lines) + [l] == lines;
    }
  }

  lemma {:induction false} BoxedConcat(a: seq<Box>, b: seq<Box>, at: Rect)
    ensures Boxed(a + b, at) <==> Boxed(a, at) || Boxed(b, at)
  {
    if k :| 0 <= k < |a| && a[k].at == at {
      assert (a + b)[k] == a[k];
    }
    if k :| 0 <= k < |b| && b[k].at == at {
      assert (a + b)[|a| + k] == b[k];
    }
  }

  predicate OverlapAt(l: Line, at: Rect, r: Range, n: nat)
    requires Complete(l) && n <= |l.words|
  {
    exists i :: 0 <= i < n && l.words[i].at == at && Overlaps(l, i, r)
  }

  lemma {:induction false} WordBoxedIff(l: Line, r: Range, n: nat, at: Rect)
    requires Complete(l) && n <= |l.words|
    ensures Boxed(WordBoxes(l, r, n), at) <==> OverlapAt(l, at, r, n)
  {
    if n > 0 {
      WordBoxedIff(l, r, n - 1, at);
      BoxedConcat(WordBoxes(l, r, n - 1), if Overlaps(l, n - 1, r) then [Box(l.words[n - 1].at, r.kind)] else [], at);
      if Overlaps(l, n - 1, r) && l.words[n - 1].at == at {
        assert [Box(l.words[n - 1].at, r.kind)][0].at == at;
      }
    }
  }

  lemma {:induction false} RangeBoxedIff(l: Line, ranges: seq<Range>, at: Rect)
    requires Complete(l)
    ensures Boxed(RangeBoxes(l, ranges), at) <==>
            exists j :: 0 <= j < |ranges| && OverlapAt(l, at, ranges[j], |l.words|)
  {
    if ranges != [] {
      RangeBoxedIff(l, Init(ranges), at);
      WordBoxedIff(l, Last(ranges), |l.words|, at);
      BoxedConcat(RangeBoxes(l, Init(ranges)), WordBoxes(l, Last(ranges), |l.words|), at);
      if OverlapAt(l, at, Last(ranges), |l.words|) {
        assert ranges[|ranges| - 1] == Last(ranges);
      }
      if j :| 0 <= j < |Init(ranges)| && OverlapAt(l, at, Init(ranges)[j], |l.words|) {
        assert ranges[j] == Init(ranges)[j];
      }
      if j :| 0 <= j < |ranges| && OverlapAt(l, at, ranges[j], |l.words|) {
        assert j < |Init(ranges)| ==> Init(ranges)[j] == ranges[j];
      }
    }
  }

  lemma {:induction false} LineBoxedIff(l: Line, detect: Detector, at: Rect)
    requires Complete(l)
    ensures Boxed(RangeBoxes(l, detect(l.text)), at) <==> SensitiveAt(l, at, detect)
  {
    var ranges := detect(l.text);
    RangeBoxedIff(l, ranges, at);
    if j :| 0 <= j < |ranges| && OverlapAt(l, at, ranges[j], |l.words|) {
      var i :| 0 <= i < |l.words| && l.words[i].at == at && Overlaps(l, i, ranges[j]);
      assert Sensitive(l, i, detect);
    }
    if i :| 0 <= i < |l.words| && l.words[i].at == at && Sensitive(l, i, detect) {
      var j :| 0 <= j < |ranges| && Overlaps(l, i, ranges[j]);
      assert OverlapAt(l, at, ranges[j], |l.words|);
    }
  }

  // ---------------------------------------------------------------- classifying

  function RangesOf(lines: seq<Line>, detect: Detector): seq<Range> {
    if lines == [] then [] else RangesOf(Init(lines), detect) + detect(Last(lines).text)
  }

  function Occurrences(ranges: seq<Range>, kind: string): nat {
    if ranges == [] then 0 else Occurrences(Init(ranges), kind) + if Last(ranges).kind == kind then 1 else 0
  }

  ghost predicate Tallies(tally: map<string, nat>, ranges: seq<Range>) {
    forall kind :: (if kind in tally then tally[kind] else 0) == Occurrences(ranges, kind)
  }

  method Count(tally: map<string, nat>, r: Range, ghost ranges: seq<Range>) returns (next: map<string, nat>)
    requires Tallies(tally, ranges)
    ensures Tallies(next, ranges + [r])
  {
    next := tally[r.kind := (if r.kind in tally then tally[r.kind] else 0) + 1];
    assert Init(ranges + [r]) == ranges;
    assert Occurrences(ranges, r.kind) == if r.kind in tally then tally[r.kind] else 0;
  }

  method BoxWords(l: Line, r: Range) returns (boxes: seq<Box>)
    requires Complete(l)
    ensures boxes == WordBoxes(l, r, |l.words|)
  {
    boxes := [];
    for i := 0 to |l.words|
      invariant boxes == WordBoxes(l, r, i)
    {
      if l.starts[i] < r.end && l.ends[i] > r.start {
        boxes := boxes + [Box(l.words[i].at, r.kind)];
      }
    }
  }

  method ClassifyLine(l: Line, ranges: seq<Range>, tally: map<string, nat>, ghost seen: seq<Range>)
    returns (boxes: seq<Box>, next: map<string, nat>)
    requires Complete(l) && Tallies(tally, seen)
    ensures boxes == RangeBoxes(l, ranges) && Tallies(next, seen + ranges)
  {
    boxes, next := [], tally;
    assert seen + ranges[..0] == seen;
    for j := 0 to |ranges|
      invariant boxes == RangeBoxes(l, ranges[..j]) && Tallies(next, seen + ranges[..j])
    {
      assert Init(ranges[..j + 1]) == ranges[..j];
      assert seen + ranges[..j] + [ranges[j]] == seen + ranges[..j + 1];
      next := Count(next, ranges[j], seen + ranges[..j]);
      var more := BoxWords(l, ranges[j]);
      boxes := boxes + more;
    }
    assert ranges[..|ranges|] == ranges;
  }

  function BoxesOf(words: seq<Word>, detect: Detector): seq<Box> {
    AllLinesComplete(words);
    LineBoxes(Lines(words), detect)
  }

  lemma {:induction false} AllLinesComplete(words: seq<Word>)
    ensures AllComplete(Lines(words))
  {
    LinesHoldTheWords(words);
  }

  /** `classifySensitiveWords` */
  method ClassifySensitiveWords(words: seq<Word>, detect: Detector) returns (boxes: seq<Box>, tally: map<string, nat>)
    ensures boxes == BoxesOf(words, detect)
    ensures Tallies(tally, RangesOf(Lines(words), detect))
  {
    AllLinesComplete(words);
    var lines := ToLines(words);
    boxes, tally := [], map[];
    for k := 0 to |lines|
      invariant boxes == LineBoxes(lines[..k], detect)
      invariant Tallies(tally, RangesOf(lines[..k], detect))
    {
      assert Init(lines[..k + 1]) == lines[..k];
      var more;
      more, tally := ClassifyLine(lines[k], detect(lines[k].text), tally, RangesOf(lines[..k], detect));
      boxes := boxes + more;
    }
    assert lines[..|lines|] == lines;
  }
}
