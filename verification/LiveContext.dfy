/** The live context buffer: an in-memory window over one live session, bounded by age,
    by two count caps and by a byte budget, evicting in place on every accepted add. */
module LiveContext {
  import opened Common

  /** One UTF-16 code unit, so that `|t|` is the source's `t.length`. */
  type CodeUnit = n: int | 0 <= n < 0x10000
  type Text = seq<CodeUnit>

  datatype Kind = FrameKind | TextKind

  datatype Entry =
    | Frame(at: int, dataUrl: Text, bytes: nat)
    | Snippet(at: int, text: Text, bytes: nat)
  {
    function Kind(): Kind {
      if Frame? then FrameKind else TextKind
    }
  }

  datatype Exchange = Exchange(question: Text, answer: Text, at: Text)

  datatype Limits = Limits(
    sessionMaxMs: nat,
    bufferWindowMs: nat,
    maxFrames: nat,
    maxFrameBytes: nat,
    maxBufferBytes: nat,
    maxTextSnippets: nat,
    maxQaExchanges: nat,
    qaFramesPerRequest: nat)
  {
    function Cap(k: Kind): nat {
      match k
      case FrameKind => maxFrames
      case TextKind => maxTextSnippets
    }
  }

  datatype SavedSegment = SavedSegment(
    frame: Option<Text>,
    textSnippets: seq<Text>,
    qa: seq<Exchange>,
    startedAt: int,
    savedAt: int,
    durationMs: int,
    frameCount: nat)

  // ---------------------------------------------------------------- text helpers

  function TrimStart(s: Text): (t: Text)
    ensures t == [] || !IsWhitespace(t[0])
  {
    if s != [] && IsWhitespace(s[0]) then TrimStart(s[1..]) else s
  }

  function TrimEnd(s: Text): (t: Text)
    ensures |t| <= |s| && t == s[..|t|]
    ensures t == [] || !IsWhitespace(t[|t| - 1])
  {
    if s != [] && IsWhitespace(s[|s| - 1]) then TrimEnd(s[..|s| - 1]) else s
  }

  function Trim(s: Text): Text {
    TrimEnd(TrimStart(s))
  }

  /** Trimming removes whitespace from both ends, all of it and nothing else. */
  lemma {:induction false} TrimMeans(s: Text) returns (front: nat)
    ensures var t := Trim(s);
            && front + |t| <= |s| && t == s[front..front + |t|]
            && (forall i :: 0 <= i < |s| ==> IsWhitespace(s[i]) || front <= i < front + |t|)
            && (t != [] ==> !IsWhitespace(t[0]) && !IsWhitespace(t[|t| - 1]))
  {
    front := TrimStartMeans(s);
    TrimEndMeans(s[front..]);
    var t := Trim(s);
    forall i | 0 <= i < |s|
      ensures IsWhitespace(s[i]) || front <= i < front + |t|
    {
      assert i >= front ==> s[front..][i - front] == s[i];
    }
  }

  lemma {:induction false} TrimStartMeans(s: Text) returns (front: nat)
    ensures front <= |s| && TrimStart(s) == s[front..] && forall i :: 0 <= i < front ==> IsWhitespace(s[i])
  {
    front := 0;
    if s != [] && IsWhitespace(s[0]) {
      var rest := TrimStartMeans(s[1..]);
      front := rest + 1;
      assert forall i :: 0 < i < front ==> s[i] == s[1..][i - 1];
    }
  }

  lemma {:induction false} TrimEndMeans(s: Text)
    ensures forall i :: |TrimEnd(s)| <= i < |s| ==> IsWhitespace(s[i])
  {
    if s != [] && IsWhitespace(s[|s| - 1]) {
      TrimEndMeans(s[..|s| - 1]);
    }
  }

  /** JavaScript's `s.slice(-n)`: the last n elements, except that -0 is 0 and keeps them all. */
  function SliceLast<T>(s: seq<T>, n: nat): seq<T> {
    if n == 0 || |s| <= n then s else s[|s| - n..]
  }

  // ---------------------------------------------------------------- one eviction

  function Count(es: seq<Entry>, k: Kind): nat {
    if es == [] then 0 else (if es[0].Kind() == k then 1 else 0) + Count(es[1..], k)
  }

  function Bytes(es: seq<Entry>): nat {
    if es == [] then 0 else es[0].bytes + Bytes(es[1..])
  }

  function OfKind(es: seq<Entry>, k: Kind): seq<Entry> {
    if es == [] then []
    else if es[0].Kind() == k then [es[0]] + OfKind(es[1..], k)
    else OfKind(es[1..], k)
  }

  function Since(es: seq<Entry>, cutoff: int): seq<Entry> {
    if es == [] then []
    else if es[0].at >= cutoff then [es[0]] + Since(es[1..], cutoff)
    else Since(es[1..], cutoff)
  }

  /** Drops the oldest entries of kind k until at most `cap` of them are left. */
  function KeepNewest(es: seq<Entry>, k: Kind, cap: nat): seq<Entry> {
    if es == [] then []
    else if es[0].Kind() == k && Count(es, k) > cap then KeepNewest(es[1..], k, cap)
    else [es[0]] + KeepNewest(es[1..], k, cap)
  }

  /** Drops the oldest entries of any kind until the bytes fit the budget. */
  function WithinBudget(es: seq<Entry>, budget: nat): seq<Entry> {
    if Bytes(es) > budget && es != [] then WithinBudget(es[1..], budget) else es
  }

  /** What one call of the source's `evict(now)` leaves of the entries. */
  function Evict(es: seq<Entry>, now: int, lim: Limits): seq<Entry> {
    var windowed := Since(es, now - lim.bufferWindowMs);
    var capped := KeepNewest(KeepNewest(windowed, FrameKind, lim.maxFrames), TextKind, lim.maxTextSnippets);
    WithinBudget(capped, lim.maxBufferBytes)
  }

  // ---------------------------------------------------------------- whole runs

  /** The buffer after adding the entries of `h` one by one, evicting after each. */
  function Run(h: seq<Entry>, lim: Limits): seq<Entry> {
    if h == [] then [] else Evict(Run(Init(h), lim) + [Last(h)], Last(h).at, lim)
  }

  function LatestText(es: seq<Entry>): Option<Text> {
    if es == [] then None
    else if Last(es).Snippet? then Some(Last(es).text)
    else LatestText(Init(es))
  }

  /** The entry passes the early returns of `addFrame` / `addText`. */
  predicate Admissible(e: Entry, buffer: seq<Entry>, lim: Limits) {
    match e
    case Frame(_, url, n) => n == |url| <= lim.maxFrameBytes
    case Snippet(_, t, n) =>
      n == |t| && t != [] && !IsWhitespace(t[0]) && !IsWhitespace(Last(t)) && LatestText(buffer) != Some(t)
  }

  /** Every entry of the history was admissible to the buffer it met. */
  predicate Admitted(h: seq<Entry>, lim: Limits) {
    h == [] || (Admitted(Init(h), lim) && Admissible(Last(h), Run(Init(h), lim), lim))
  }

  predicate Chronological(es: seq<Entry>) {
    forall i, j :: 0 <= i <= j < |es| ==> es[i].at <= es[j].at
  }

  // ---------------------------------------------------------------- closed form

  /** Entry i of the history is inside the window of the newest entry, and fewer than
      its cap of entries of its own kind came after it. */
  predicate Live(h: seq<Entry>, i: nat, lim: Limits)
    requires i < |h|
  {
    && h[i].at >= Last(h).at - lim.bufferWindowMs
    && Count(h[i + 1..], h[i].Kind()) < lim.Cap(h[i].Kind())
  }

  /** The live entries of the history from index `from` on, in order. */
  function Capped(h: seq<Entry>, from: nat, lim: Limits): seq<Entry>
    requires from <= |h|
    decreases |h| - from
  {
    if from == |h| then []
    else (if Live(h, from, lim) then [h[from]] else []) + Capped(h, from + 1, lim)
  }

  /** The least index at which the live history fits the byte budget. */
  function CutFrom(h: seq<Entry>, from: nat, lim: Limits): (c: nat)
    requires from <= |h|
    ensures from <= c <= |h|
    ensures Bytes(Capped(h, c, lim)) <= lim.maxBufferBytes
    ensures forall d :: from <= d < c ==> Bytes(Capped(h, d, lim)) > lim.maxBufferBytes
    decreases |h| - from
  {
    if Bytes(Capped(h, from, lim)) <= lim.maxBufferBytes then from else CutFrom(h, from + 1, lim)
  }

  function Cut(h: seq<Entry>, lim: Limits): (c: nat)
    ensures c <= |h|
  {
    CutFrom(h, 0, lim)
  }

  /** Byte cuts are sticky: the greatest cut over all prefixes of the history. */
  function StickyCut(h: seq<Entry>, lim: Limits): (c: nat)
    ensures c <= |h|
  {
    if h == [] then 0
    else
      var before := StickyCut(Init(h), lim);
      var now := Cut(h, lim);
      if now < before then before else now
  }

  // ---------------------------------------------------------------- counting lemmas

  lemma {:induction false} CountAppend(a: seq<Entry>, b: seq<Entry>, k: Kind)
    ensures Count(a + b, k) == Count(a, k) + Count(b, k)
  {
    if a == [] {
      assert a + b == b;
    } else {
      assert (a + b)[1..] == a[1..] + b;
      CountAppend(a[1..], b, k);
    }
  }

  lemma {:induction false} BytesAppend(a: seq<Entry>, b: seq<Entry>)
    ensures Bytes(a + b) == Bytes(a) + Bytes(b)
  {
    if a == [] {
      assert a + b == b;
    } else {
      assert (a + b)[1..] == a[1..] + b;
      BytesAppend(a[1..], b);
    }
  }

  /** Dropping entries of one kind does not touch the other kind, and caps its own. */
  lemma {:induction false} KeepNewestCounts(es: seq<Entry>, k: Kind, cap: nat)
    ensures forall j :: j != k ==> Count(KeepNewest(es, k, cap), j) == Count(es, j)
    ensures Count(KeepNewest(es, k, cap), k) == if Count(es, k) <= cap then Count(es, k) else cap
  {
    if es != [] {
      KeepNewestCounts(es[1..], k, cap);
      var kept := [es[0]] + KeepNewest(es[1..], k, cap);
      assert kept[1..] == KeepNewest(es[1..], k, cap);
    }
  }

  /** Both caps at once, decided for each entry by what follows it. */
  function CapBoth(es: seq<Entry>, lim: Limits): seq<Entry> {
    if es == [] then []
    else if Count(es[1..], es[0].Kind()) >= lim.Cap(es[0].Kind()) then CapBoth(es[1..], lim)
    else [es[0]] + CapBoth(es[1..], lim)
  }

  lemma {:induction false} CapsCommute(es: seq<Entry>, lim: Limits)
    ensures KeepNewest(KeepNewest(es, FrameKind, lim.maxFrames), TextKind, lim.maxTextSnippets) == CapBoth(es, lim)
  {
    if es != [] {
      CapsCommute(es[1..], lim);
      var rest := KeepNewest(es[1..], FrameKind, lim.maxFrames);
      KeepNewestCounts(es[1..], FrameKind, lim.maxFrames);
      assert ([es[0]] + rest)[1..] == rest;
    }
  }

  // ---------------------------------------------------------------- proof of the closed form

  /** The previous step's live entries from index `from` on, and the newly added entry. */
  function Extended(h: seq<Entry>, from: nat, lim: Limits): seq<Entry>
    requires h != [] && from <= |Init(h)|
  {
    Capped(Init(h), from, lim) + [Last(h)]
  }

  function Cutoff(h: seq<Entry>, lim: Limits): int
    requires h != []
  {
    Last(h).at - lim.bufferWindowMs
  }

  lemma {:induction false} ExtendedStep(h: seq<Entry>, from: nat, lim: Limits)
    requires h != [] && from <= |Init(h)|
    ensures from == |Init(h)| ==> Extended(h, from, lim) == [Last(h)] == h[from..]
    ensures from < |Init(h)| && !Live(Init(h), from, lim) ==> Extended(h, from, lim) == Extended(h, from + 1, lim)
    ensures from < |Init(h)| && Live(Init(h), from, lim) ==>
              Extended(h, from, lim) == [h[from]] + Extended(h, from + 1, lim)
  {}

  lemma {:induction false} SinceCons(e: Entry, es: seq<Entry>, cutoff: int)
    ensures Since([e] + es, cutoff) == (if e.at >= cutoff then [e] else []) + Since(es, cutoff)
  {
    assert ([e] + es)[1..] == es;
  }

  lemma {:induction false} CountCons(e: Entry, es: seq<Entry>, k: Kind)
    ensures Count([e] + es, k) == (if e.Kind() == k then 1 else 0) + Count(es, k)
  {
    assert ([e] + es)[1..] == es;
  }

  /** Once an entry is inside the window and under its cap, so is everything of its kind after it. */
  lemma {:induction false} LaterAllLive(h: seq<Entry>, from: nat, k: Kind, lim: Limits)
    requires h != [] && from <= |Init(h)| && Chronological(h)
    requires forall i :: from <= i < |h| ==> h[i].at >= Cutoff(h, lim)
    requires Count(Init(h)[from..], k) <= lim.Cap(k)
    ensures Count(Since(Extended(h, from, lim), Cutoff(h, lim)), k) == Count(h[from..], k)
    decreases |h| - from
  {
    var g := Init(h);
    ExtendedStep(h, from, lim);
    if from < |g| {
      assert g[from..] == [h[from]] + g[from + 1..];
      CountCons(h[from], g[from + 1..], k);
      LaterAllLive(h, from + 1, k, lim);
      if Live(g, from, lim) {
        CountExtended(h, from, k, lim);
      } else {
        CountSkipped(h, from, k, lim);
      }
    }
  }

  lemma {:induction false} CountSkipped(h: seq<Entry>, from: nat, k: Kind, lim: Limits)
    requires h != [] && from < |Init(h)| && Chronological(h)
    requires !Live(Init(h), from, lim) && h[from].at >= Cutoff(h, lim)
    requires Count(Init(h)[from..], k) <= lim.Cap(k)
    ensures Count(h[from..], k) == Count(h[from + 1..], k)
  {
    var g := Init(h);
    assert Last(g).at <= Last(h).at;
    assert g[from..] == [h[from]] + g[from + 1..];
    CountCons(h[from], g[from + 1..], k);
    assert h[from].Kind() != k;
    assert h[from..] == [h[from]] + h[from + 1..];
    CountCons(h[from], h[from + 1..], k);
  }

  lemma {:induction false} CountExtended(h: seq<Entry>, from: nat, k: Kind, lim: Limits)
    requires h != [] && from < |Init(h)| && Live(Init(h), from, lim) && h[from].at >= Cutoff(h, lim)
    requires Count(Since(Extended(h, from + 1, lim), Cutoff(h, lim)), k) == Count(h[from + 1..], k)
    ensures Count(Since(Extended(h, from, lim), Cutoff(h, lim)), k) == Count(h[from..], k)
  {
    ExtendedStep(h, from, lim);
    SinceCons(h[from], Extended(h, from + 1, lim), Cutoff(h, lim));
    CountCons(h[from], Since(Extended(h, from + 1, lim), Cutoff(h, lim)), k);
    assert h[from..] == [h[from]] + h[from + 1..];
    CountCons(h[from], h[from + 1..], k);
  }

  /** An entry that was live before and is still in the window is live now iff it is under its cap. */
  lemma {:induction false} LiveStep(h: seq<Entry>, from: nat, lim: Limits)
    requires h != [] && from < |Init(h)| && Chronological(h)
    ensures !Live(Init(h), from, lim) ==> !Live(h, from, lim)
    ensures Live(Init(h), from, lim) && h[from].at >= Cutoff(h, lim) ==>
              Count(Since(Extended(h, from + 1, lim), Cutoff(h, lim)), h[from].Kind())
              == Count(h[from + 1..], h[from].Kind())
  {
    var g, k := Init(h), h[from].Kind();
    assert g[from + 1..] + [Last(h)] == h[from + 1..];
    CountAppend(g[from + 1..], [Last(h)], k);
    assert Last(g).at <= Last(h).at;
    if Live(g, from, lim) && h[from].at >= Cutoff(h, lim) {
      LaterAllLive(h, from + 1, k, lim);
    }
  }

  /** Windowing and capping the previous live history plus the new entry gives the new live history. */
  lemma {:induction false} CapStep(h: seq<Entry>, from: nat, lim: Limits)
    requires h != [] && from <= |Init(h)| && Chronological(h)
    ensures CapBoth(Since(Extended(h, from, lim), Cutoff(h, lim)), lim) == Capped(h, from, lim)
    decreases |h| - from
  {
    ExtendedStep(h, from, lim);
    if from == |Init(h)| {
      assert h[from + 1..] == [];
      assert Capped(h, from + 1, lim) == [];
      SinceCons(Last(h), [], Cutoff(h, lim));
    } else {
      CapStep(h, from + 1, lim);
      LiveStep(h, from, lim);
      var rest := Since(Extended(h, from + 1, lim), Cutoff(h, lim));
      SinceCons(h[from], Extended(h, from + 1, lim), Cutoff(h, lim));
      assert ([h[from]] + rest)[1..] == rest;
    }
  }

  lemma {:induction false} CappedShrinks(h: seq<Entry>, c: nat, d: nat, lim: Limits)
    requires c <= d <= |h|
    ensures Bytes(Capped(h, c, lim)) >= Bytes(Capped(h, d, lim))
    decreases d - c
  {
    if c < d {
      CappedShrinks(h, c + 1, d, lim);
      if Live(h, c, lim) {
        assert Capped(h, c, lim)[1..] == Capped(h, c + 1, lim);
      } else {
        assert Capped(h, c, lim) == Capped(h, c + 1, lim);
      }
    }
  }

  /** Trimming the live history from index c to the budget is moving c up to the least cut. */
  lemma {:induction false} BudgetIsCut(h: seq<Entry>, c: nat, lim: Limits)
    requires c <= |h|
    ensures WithinBudget(Capped(h, c, lim), lim.maxBufferBytes)
            == Capped(h, if Cut(h, lim) < c then c else Cut(h, lim), lim)
    decreases |h| - c
  {
    var cut := Cut(h, lim);
    if Bytes(Capped(h, c, lim)) <= lim.maxBufferBytes {
      assert cut <= c;
    } else {
      if cut <= c {
        CappedShrinks(h, cut, c, lim);
      }
      assert c < cut;
      BudgetIsCut(h, c + 1, lim);
      if Live(h, c, lim) {
        assert Capped(h, c, lim)[1..] == Capped(h, c + 1, lim);
      } else {
        assert Capped(h, c, lim) == Capped(h, c + 1, lim);
      }
    }
  }

  lemma {:induction false} EvictStep(h: seq<Entry>, c: nat, lim: Limits)
    requires h != [] && c <= |Init(h)| && Chronological(h)
    ensures Evict(Capped(Init(h), c, lim) + [Last(h)], Last(h).at, lim)
            == Capped(h, if Cut(h, lim) < c then c else Cut(h, lim), lim)
  {
    CapStep(h, c, lim);
    CapsCommute(Since(Extended(h, c, lim), Cutoff(h, lim)), lim);
    BudgetIsCut(h, c, lim);
  }

  /** MAIN: incremental eviction has an exact closed form over the whole accepted history. */
  lemma {:induction false} ClosedForm(h: seq<Entry>, lim: Limits)
    requires Chronological(h)
    ensures Run(h, lim) == Capped(h, StickyCut(h, lim), lim)
  {
    if h != [] {
      ClosedForm(Init(h), lim);
      EvictStep(h, StickyCut(Init(h), lim), lim);
    }
  }

  /** The sticky cut is at least the least cut of every step of the run ... */
  lemma {:induction false} StickyCutBounds(h: seq<Entry>, m: nat, lim: Limits)
    requires m <= |h|
    ensures Cut(h[..m], lim) <= StickyCut(h, lim)
  {
    if m == |h| {
      assert h[..m] == h;
    } else {
      assert h[..m] == Init(h)[..m];
      StickyCutBounds(Init(h), m, lim);
    }
  }

  /** ... and it is the least cut of one of them. */
  lemma {:induction false} StickyCutIsACut(h: seq<Entry>, lim: Limits) returns (m: nat)
    ensures m <= |h| && Cut(h[..m], lim) == StickyCut(h, lim)
  {
    m := |h|;
    assert h[..m] == h;
    if h != [] && Cut(h, lim) < StickyCut(Init(h), lim) {
      m := StickyCutIsACut(Init(h), lim);
      assert h[..m] == Init(h)[..m];
    }
  }

  /** A first entry pushed out by a second one's bytes stays out after the second is capped away;
      evicting the three at once would have kept it. */
  lemma {:induction false} ByteCutIsPermanent(e0: Entry, e1: Entry, e2: Entry, lim: Limits)
    requires e0.Frame? && e1.Snippet? && e2.Snippet? && e0.at <= e1.at <= e2.at <= e0.at + lim.bufferWindowMs
    requires lim.maxFrames >= 1 && lim.maxTextSnippets == 1
    requires e0.bytes + e1.bytes > lim.maxBufferBytes >= e0.bytes + e2.bytes
    requires lim.maxBufferBytes >= e1.bytes
    ensures Run([e0, e1, e2], lim) == [e2]
    ensures Evict([e0, e1, e2], e2.at, lim) == [e0, e2]
  {
    ThreeEntries(e0, e1, e2, lim);
    assert Run([e0], lim) == [e0] by {
      OneEntry(e0, e0.at, lim);
      assert [] + [e0] == [e0];
      RunAppend([], [], e0, [e0], lim);
    }
    assert Run([e0, e1], lim) == [e1] by {
      TwoEntries(e0, e1, e1.at, lim);
      assert [e0] + [e1] == [e0, e1];
      RunAppend([e0], [e0], e1, [e1], lim);
    }
    TwoEntries(e1, e2, e2.at, lim);
    assert [e1] + [e2] == [e1, e2] && [e0, e1] + [e2] == [e0, e1, e2];
    RunAppend([e0, e1], [e1], e2, [e2], lim);
  }

  lemma {:induction false} RunAppend(g: seq<Entry>, before: seq<Entry>, e: Entry, after: seq<Entry>, lim: Limits)
    requires Run(g, lim) == before && Evict(before + [e], e.at, lim) == after
    ensures Run(g + [e], lim) == after
  {
    assert Init(g + [e]) == g;
  }

  lemma {:induction false} OneEntry(e: Entry, now: int, lim: Limits)
    requires e.at >= now - lim.bufferWindowMs && e.bytes <= lim.maxBufferBytes && lim.Cap(e.Kind()) >= 1
    ensures Evict([e], now, lim) == [e]
  {
    EvictInWindow([e], now, lim);
    assert [e][1..] == [];
  }

  lemma {:induction false} TwoEntries(d: Entry, e: Entry, now: int, lim: Limits)
    requires d.at >= now - lim.bufferWindowMs && e.at >= now - lim.bufferWindowMs
    requires d.Kind() != e.Kind() ==> d.bytes + e.bytes > lim.maxBufferBytes
    requires d.Kind() == e.Kind() ==> lim.Cap(d.Kind()) == 1
    requires e.bytes <= lim.maxBufferBytes && lim.Cap(e.Kind()) >= 1
    ensures Evict([d, e], now, lim) == [e]
  {
    EvictInWindow([d, e], now, lim);
    assert [d, e][1..] == [e] && [e][1..] == [];
    assert CapBoth([e], lim) == [e] && Count([e], d.Kind()) == if d.Kind() == e.Kind() then 1 else 0;
    assert [d] + [e] == [d, e];
    BytesAppend([d], [e]);
  }

  lemma {:induction false} ThreeEntries(e0: Entry, e1: Entry, e2: Entry, lim: Limits)
    requires e0.Frame? && e1.Snippet? && e2.Snippet? && e0.at <= e1.at <= e2.at <= e0.at + lim.bufferWindowMs
    requires lim.maxFrames >= 1 && lim.maxTextSnippets == 1 && lim.maxBufferBytes >= e0.bytes + e2.bytes
    ensures Evict([e0, e1, e2], e2.at, lim) == [e0, e2]
  {
    EvictInWindow([e0, e1, e2], e2.at, lim);
    assert [e0, e1, e2][1..] == [e1, e2] && [e1, e2][1..] == [e2] && [e2][1..] == [];
    assert CapBoth([e2], lim) == [e2] && Count([e2], TextKind) == 1;
    assert CapBoth([e1, e2], lim) == [e2];
    assert Count([e2], FrameKind) == 0 && Count([e1, e2], FrameKind) == 0;
    assert [e0] + [e2] == [e0, e2];
    BytesAppend([e0], [e2]);
  }

  /** Evicting the whole history once keeps the live entries at or after its own least cut. */
  lemma {:induction false} OneEviction(h: seq<Entry>, lim: Limits)
    requires h != [] && Chronological(h)
    ensures Evict(h, Last(h).at, lim) == Capped(h, Cut(h, lim), lim)
  {
    var windowed := Since(h, Cutoff(h, lim));
    CapsCommute(windowed, lim);
    assert h[0..] == h;
    CappedSuffix(h, 0, lim);
    BudgetIsCut(h, 0, lim);
  }

  lemma {:induction false} CappedSuffix(h: seq<Entry>, from: nat, lim: Limits)
    requires h != [] && from <= |h| && Chronological(h)
    ensures CapBoth(Since(h[from..], Cutoff(h, lim)), lim) == Capped(h, from, lim)
    decreases |h| - from
  {
    if from < |h| {
      var rest := h[from + 1..];
      assert h[from..] == [h[from]] + rest;
      CappedSuffix(h, from + 1, lim);
      SinceCons(h[from], rest, Cutoff(h, lim));
      if h[from].at >= Cutoff(h, lim) {
        SinceKeepsAll(rest, Cutoff(h, lim));
        assert ([h[from]] + rest)[1..] == rest;
      }
    }
  }

  lemma {:induction false} CappedSameIff(h: seq<Entry>, c: nat, d: nat, lim: Limits)
    requires c <= d <= |h|
    ensures |Capped(h, c, lim)| >= |Capped(h, d, lim)|
    ensures Capped(h, c, lim) == Capped(h, d, lim) <==> forall i :: c <= i < d ==> !Live(h, i, lim)
    decreases d - c
  {
    if c < d {
      CappedSameIff(h, c + 1, d, lim);
    }
  }

  /** MAIN: running over the history is evicting it once exactly when no entry that is still live lies
      between the cut that the history needs now and the highest it ever needed. A byte cut is never undone,
      even when the entry that forced it has itself been evicted since (`ByteCutIsPermanent`). */
  lemma {:induction false} RunIsOneEvictionIff(h: seq<Entry>, lim: Limits)
    requires h != [] && Chronological(h)
    ensures Run(h, lim) == Evict(h, Last(h).at, lim) <==>
            forall i :: Cut(h, lim) <= i < StickyCut(h, lim) ==> !Live(h, i, lim)
  {
    ClosedForm(h, lim);
    OneEviction(h, lim);
    CappedSameIff(h, Cut(h, lim), StickyCut(h, lim), lim);
  }

  lemma {:induction false} EvictInWindow(es: seq<Entry>, now: int, lim: Limits)
    requires forall e :: e in es ==> e.at >= now - lim.bufferWindowMs
    ensures Evict(es, now, lim) == WithinBudget(CapBoth(es, lim), lim.maxBufferBytes)
  {
    SinceKeepsAll(es, now - lim.bufferWindowMs);
    CapsCommute(es, lim);
  }

  // ---------------------------------------------------------------- invariants of every run

  predicate IsSuffix<T(==)>(a: seq<T>, b: seq<T>) {
    |a| <= |b| && a == b[|b| - |a|..]
  }

  ghost predicate NoRepeats(texts: seq<Entry>) {
    forall i :: 0 < i < |texts| ==> Changed(texts, i)
  }

  predicate Changed(texts: seq<Entry>, i: nat)
    requires 0 < i < |texts|
  {
    texts[i - 1].Snippet? && texts[i].Snippet? && texts[i - 1].text != texts[i].text
  }

  lemma {:induction false} OfKindAppend(a: seq<Entry>, b: seq<Entry>, k: Kind)
    ensures OfKind(a + b, k) == OfKind(a, k) + OfKind(b, k)
  {
    if a == [] {
      assert a + b == b;
    } else {
      assert (a + b)[1..] == a[1..] + b;
      OfKindAppend(a[1..], b, k);
    }
  }

  lemma {:induction false} OfKindCount(es: seq<Entry>, k: Kind)
    ensures |OfKind(es, k)| == Count(es, k)
    ensures forall e :: e in OfKind(es, k) <==> e in es && e.Kind() == k
  {
    if es != [] {
      OfKindCount(es[1..], k);
    }
  }

  lemma {:induction false} BudgetSuffix(es: seq<Entry>, budget: nat)
    ensures IsSuffix(WithinBudget(es, budget), es) && Bytes(WithinBudget(es, budget)) <= budget
    ensures es != [] ==> (WithinBudget(es, budget) == [] <==> Last(es).bytes > budget)
  {
    if Bytes(es) > budget && es != [] {
      BudgetSuffix(es[1..], budget);
    } else if es != [] {
      BytesAppend(Init(es), [Last(es)]);
      assert es == Init(es) + [Last(es)];
    }
  }

  lemma {:induction false} SinceSuffix(es: seq<Entry>, cutoff: int)
    requires Chronological(es)
    ensures IsSuffix(Since(es, cutoff), es)
  {
    if es != [] {
      SinceSuffix(es[1..], cutoff);
      if es[0].at >= cutoff {
        SinceKeepsAll(es, cutoff);
      }
    }
  }

  lemma {:induction false} SinceKeepsAll(es: seq<Entry>, cutoff: int)
    requires forall e :: e in es ==> e.at >= cutoff
    ensures Since(es, cutoff) == es
  {
    if es != [] {
      SinceKeepsAll(es[1..], cutoff);
    }
  }

  lemma {:induction false} SinceAppend(a: seq<Entry>, b: seq<Entry>, cutoff: int)
    ensures Since(a + b, cutoff) == Since(a, cutoff) + Since(b, cutoff)
  {
    if a == [] {
      assert a + b == b;
    } else {
      assert (a + b)[1..] == a[1..] + b;
      SinceAppend(a[1..], b, cutoff);
    }
  }

  lemma {:induction false} OfKindCons(e: Entry, es: seq<Entry>, k: Kind)
    ensures OfKind([e] + es, k) == (if e.Kind() == k then [e] else []) + OfKind(es, k)
  {
    assert ([e] + es)[1..] == es;
  }

  lemma {:induction false} CapBothStep(e: Entry, rest: seq<Entry>, lim: Limits, k: Kind)
    ensures OfKind(CapBoth([e] + rest, lim), k) ==
            (if e.Kind() == k && Count(rest, k) < lim.Cap(k) then [e] else []) + OfKind(CapBoth(rest, lim), k)
  {
    assert ([e] + rest)[1..] == rest;
    OfKindCons(e, CapBoth(rest, lim), k);
  }

  /** Capping drops oldest-first within each kind. */
  lemma {:induction false} CapBothSuffix(es: seq<Entry>, lim: Limits, k: Kind)
    ensures IsSuffix(OfKind(CapBoth(es, lim), k), OfKind(es, k))
    ensures |OfKind(CapBoth(es, lim), k)| == if Count(es, k) <= lim.Cap(k) then Count(es, k) else lim.Cap(k)
  {
    if es != [] {
      var e, rest := es[0], es[1..];
      assert es == [e] + rest;
      CapBothSuffix(rest, lim, k);
      CapBothStep(e, rest, lim, k);
      OfKindCons(e, rest, k);
      OfKindCount(rest, k);
      SuffixCons(OfKind(CapBoth(rest, lim), k), OfKind(rest, k), e);
    }
  }

  lemma {:induction false} SuffixCons(a: seq<Entry>, b: seq<Entry>, e: Entry)
    requires IsSuffix(a, b)
    ensures IsSuffix(a, [e] + b)
    ensures |a| == |b| ==> IsSuffix([e] + a, [e] + b)
  {}

  lemma {:induction false} SuffixOfKind(a: seq<Entry>, b: seq<Entry>, k: Kind)
    requires IsSuffix(a, b)
    ensures IsSuffix(OfKind(a, k), OfKind(b, k))
  {
    OfKindAppend(b[..|b| - |a|], a, k);
    assert b == b[..|b| - |a|] + a;
  }

  lemma {:induction false} CapBothMembers(es: seq<Entry>, lim: Limits)
    ensures forall e :: e in CapBoth(es, lim) ==> e in es
  {
    if es != [] {
      CapBothMembers(es[1..], lim);
    }
  }

  lemma {:induction false} SinceMembers(es: seq<Entry>, cutoff: int)
    ensures forall e :: e in Since(es, cutoff) <==> e in es && e.at >= cutoff
  {
    if es != [] {
      SinceMembers(es[1..], cutoff);
    }
  }

  lemma {:induction false} CapBothLast(es: seq<Entry>, e: Entry, lim: Limits)
    ensures lim.Cap(e.Kind()) >= 1 ==> CapBoth(es + [e], lim) != [] && Last(CapBoth(es + [e], lim)) == e
  {
    if es == [] {
      assert es + [e] == [e];
    } else {
      assert (es + [e])[1..] == es[1..] + [e];
      CapBothLast(es[1..], e, lim);
    }
  }

  lemma {:induction false} EvictWithinLimits(es: seq<Entry>, now: int, lim: Limits)
    ensures forall k :: Count(Evict(es, now, lim), k) <= lim.Cap(k)
    ensures Bytes(Evict(es, now, lim)) <= lim.maxBufferBytes
    ensures forall e :: e in Evict(es, now, lim) ==> e in es && e.at >= now - lim.bufferWindowMs
  {
    var windowed := Since(es, now - lim.bufferWindowMs);
    CapsCommute(windowed, lim);
    var capped := CapBoth(windowed, lim);
    BudgetSuffix(capped, lim.maxBufferBytes);
    CapBothMembers(windowed, lim);
    SinceMembers(es, now - lim.bufferWindowMs);
    var kept := WithinBudget(capped, lim.maxBufferBytes);
    forall k
      ensures Count(kept, k) <= lim.Cap(k)
    {
      CapBothSuffix(windowed, lim, k);
      SuffixOfKind(kept, capped, k);
      OfKindCount(kept, k);
    }
  }

  /** Every limit holds after every accepted add, whatever the clock did. */
  lemma {:induction false} RunWithinLimits(h: seq<Entry>, lim: Limits)
    ensures forall k :: Count(Run(h, lim), k) <= lim.Cap(k)
    ensures Bytes(Run(h, lim)) <= lim.maxBufferBytes
    ensures forall e :: e in Run(h, lim) ==> h != [] && e.at >= Last(h).at - lim.bufferWindowMs
  {
    if h != [] {
      EvictWithinLimits(Run(Init(h), lim) + [Last(h)], Last(h).at, lim);
    }
  }

  lemma {:induction false} CapThenBudgetKeepsNewest(windowed: seq<Entry>, e: Entry, lim: Limits)
    ensures var after := WithinBudget(CapBoth(windowed + [e], lim), lim.maxBufferBytes);
            && (e in after <==> e.bytes <= lim.maxBufferBytes && lim.Cap(e.Kind()) >= 1)
            && (e in after ==> Last(after) == e)
  {
    var capped := CapBoth(windowed + [e], lim);
    BudgetSuffix(capped, lim.maxBufferBytes);
    if lim.Cap(e.Kind()) >= 1 {
      CapBothLast(windowed, e, lim);
    } else {
      CapBothSuffix(windowed + [e], lim, e.Kind());
      OfKindCount(capped, e.Kind());
    }
  }

  lemma {:induction false} EvictKeepsNewest(before: seq<Entry>, e: Entry, lim: Limits)
    ensures var after := Evict(before + [e], e.at, lim);
            && (e in after <==> e.bytes <= lim.maxBufferBytes && lim.Cap(e.Kind()) >= 1)
            && (e in after ==> Last(after) == e)
  {
    var cutoff := e.at - lim.bufferWindowMs;
    SinceAppend(before, [e], cutoff);
    assert Since([e], cutoff) == [e];
    CapsCommute(Since(before, cutoff) + [e], lim);
    CapThenBudgetKeepsNewest(Since(before, cutoff), e, lim);
  }

  /** The entry just added is kept exactly when it fits the byte budget and its cap is not zero,
      and then it is the newest entry. */
  lemma {:induction false} NewestSurvives(h: seq<Entry>, lim: Limits)
    requires h != []
    ensures Last(h) in Run(h, lim) <==> Last(h).bytes <= lim.maxBufferBytes && lim.Cap(Last(h).Kind()) >= 1
    ensures Last(h) in Run(h, lim) ==> Last(Run(h, lim)) == Last(h)
  {
    EvictKeepsNewest(Run(Init(h), lim), Last(h), lim);
  }

  lemma {:induction false} CappedMembers(h: seq<Entry>, from: nat, lim: Limits)
    requires from <= |h| && Chronological(h)
    ensures forall e :: e in Capped(h, from, lim) ==> e in h[from..]
    ensures Chronological(Capped(h, from, lim))
    decreases |h| - from
  {
    if from < |h| {
      CappedMembers(h, from + 1, lim);
      assert h[from..] == [h[from]] + h[from + 1..];
      ChronologicalCons(h[from], Capped(h, from + 1, lim));
    }
  }

  lemma {:induction false} ChronologicalCons(e: Entry, es: seq<Entry>)
    requires Chronological(es) && forall x :: x in es ==> e.at <= x.at
    ensures Chronological([e] + es)
  {
    assert forall i :: 0 <= i < |es| ==> es[i] in es;
  }

  lemma {:induction false} LatestTextIsLast(es: seq<Entry>)
    ensures var ts := OfKind(es, TextKind);
            LatestText(es) == if ts == [] then None else if Last(ts).Snippet? then Some(Last(ts).text) else None
    ensures forall i :: 0 <= i < |OfKind(es, TextKind)| ==> OfKind(es, TextKind)[i].Snippet?
  {
    if es != [] {
      LatestTextIsLast(Init(es));
      OfKindAppend(Init(es), [Last(es)], TextKind);
      assert es == Init(es) + [Last(es)];
    }
  }

  lemma {:induction false} EvictKeepsTextOrder(es: seq<Entry>, now: int, lim: Limits)
    requires Chronological(es)
    ensures IsSuffix(OfKind(Evict(es, now, lim), TextKind), OfKind(es, TextKind))
  {
    var windowed := Since(es, now - lim.bufferWindowMs);
    SinceSuffix(es, now - lim.bufferWindowMs);
    SuffixOfKind(windowed, es, TextKind);
    CapsCommute(windowed, lim);
    CapBothSuffix(windowed, lim, TextKind);
    var capped := CapBoth(windowed, lim);
    BudgetSuffix(capped, lim.maxBufferBytes);
    SuffixOfKind(WithinBudget(capped, lim.maxBufferBytes), capped, TextKind);
  }

  lemma {:induction false} AppendKeepsNoRepeats(before: seq<Entry>, e: Entry)
    requires NoRepeats(OfKind(before, TextKind))
    requires e.Snippet? ==> LatestText(before) != Some(e.text)
    ensures NoRepeats(OfKind(before + [e], TextKind))
  {
    OfKindAppend(before, [e], TextKind);
    LatestTextIsLast(before);
    var texts, texts' := OfKind(before, TextKind), OfKind(before + [e], TextKind);
    forall i | 0 < i < |texts'|
      ensures Changed(texts', i)
    {
      assert i < |texts| ==> Changed(texts, i);
    }
  }

  lemma {:induction false} EvictKeepsNoRepeats(before: seq<Entry>, e: Entry, lim: Limits)
    requires Chronological(before) && NoRepeats(OfKind(before, TextKind))
    requires forall x :: x in before ==> x.at <= e.at
    requires e.Snippet? ==> LatestText(before) != Some(e.text)
    ensures NoRepeats(OfKind(Evict(before + [e], e.at, lim), TextKind))
  {
    AppendKeepsNoRepeats(before, e);
    assert forall i :: 0 <= i < |before| ==> before[i] in before;
    EvictKeepsTextOrder(before + [e], e.at, lim);
    NoRepeatsSuffix(OfKind(Evict(before + [e], e.at, lim), TextKind), OfKind(before + [e], TextKind));
  }

  lemma {:induction false} NoRepeatsSuffix(a: seq<Entry>, b: seq<Entry>)
    requires IsSuffix(a, b) && NoRepeats(b)
    ensures NoRepeats(a)
  {
    var d := |b| - |a|;
    forall i | 0 < i < |a|
      ensures Changed(a, i)
    {
      assert Changed(b, i + d);
    }
  }

  lemma {:induction false} RunIsChronological(h: seq<Entry>, lim: Limits)
    requires Chronological(h)
    ensures Chronological(Run(h, lim))
    ensures forall e :: e in Run(h, lim) ==> e in h
  {
    ClosedForm(h, lim);
    CappedMembers(h, StickyCut(h, lim), lim);
  }

  /** Under a clock that never goes back, the buffer stays in time order and two neighbouring
      text snippets are never the same text. */
  lemma {:induction false} RunOrderedAndDeduplicated(h: seq<Entry>, lim: Limits)
    requires Chronological(h) && Admitted(h, lim)
    ensures Chronological(Run(h, lim))
    ensures NoRepeats(OfKind(Run(h, lim), TextKind))
  {
    RunIsChronological(h, lim);
    if h != [] {
      RunOrderedAndDeduplicated(Init(h), lim);
      RunIsChronological(Init(h), lim);
      EvictKeepsNoRepeats(Run(Init(h), lim), Last(h), lim);
    }
  }

  // ---------------------------------------------------------------- questions and answers

  /** The Q&A list after `addQa` was called for each element of `xs` in turn. */
  function QaRun(xs: seq<Exchange>, cap: nat): seq<Exchange> {
    if xs == [] then []
    else
      var pushed := QaRun(Init(xs), cap) + [Last(xs)];
      if |pushed| > cap then SliceLast(pushed, cap) else pushed
  }

  /** The list is the most recent exchanges, capped; a cap of 0 caps nothing at all. */
  lemma {:induction false} QaKeepsNewest(xs: seq<Exchange>, cap: nat)
    ensures QaRun(xs, cap) == SliceLast(xs, cap)
  {
    if xs != [] {
      QaKeepsNewest(Init(xs), cap);
      assert xs == Init(xs) + [Last(xs)];
      SlideByOne(Init(xs), Last(xs), cap);
    }
  }

  lemma {:induction false} SlideByOne(xs: seq<Exchange>, x: Exchange, cap: nat)
    ensures var pushed := SliceLast(xs, cap) + [x];
            SliceLast(xs + [x], cap) == if |pushed| > cap then SliceLast(pushed, cap) else pushed
  {}

  /** The Q&A cap holds on every run exactly when the configured cap is not zero. */
  lemma {:induction false} QaCappedIffPositive(cap: nat)
    ensures (forall xs :: |QaRun(xs, cap)| <= cap) <==> cap >= 1
  {
    var x := Exchange([], [], []);
    QaKeepsNewest([x], cap);
    forall xs | cap >= 1
      ensures |QaRun(xs, cap)| <= cap
    {
      QaKeepsNewest(xs, cap);
    }
    if cap == 0 {
      assert |QaRun([x], 0)| == 1;
    }
  }

  // ---------------------------------------------------------------- the class

  class LiveBuffer {
    var entries: seq<Entry>
    var qa: seq<Exchange>
    const startedAt: int
    const limits: Limits
    /** Accepted entries and exchanges since construction or the last `Clear`. */
    ghost var accepted: seq<Entry>
    ghost var asked: seq<Exchange>

    ghost predicate Valid()
      reads this
    {
      && entries == Run(accepted, limits)
      && Admitted(accepted, limits)
      && qa == QaRun(asked, limits.maxQaExchanges)
    }

    constructor (startedAt: int, limits: Limits)
      ensures Valid() && this.startedAt == startedAt && this.limits == limits
      ensures entries == [] && qa == [] && accepted == [] && asked == []
    {
      this.startedAt, this.limits := startedAt, limits;
      entries, qa, accepted, asked := [], [], [], [];
    }

    /** True once the hard session cap is reached. */
    predicate Expired(now: int) {
      now - startedAt >= limits.sessionMaxMs
    }

    function RemainingMs(now: int): (r: int)
      ensures r >= 0 && (r == 0 <==> Expired(now))
      ensures !Expired(now) ==> Expired(now + r) && !Expired(now + r - 1) && now + r == startedAt + limits.sessionMaxMs
    {
      var left := limits.sessionMaxMs - (now - startedAt);
      if left > 0 then left else 0
    }

    method AddFrame(dataUrl: Text, now: int)
      requires Valid()
      modifies this
      ensures Valid() && qa == old(qa) && asked == old(asked)
      ensures accepted == if |dataUrl| > limits.maxFrameBytes then old(accepted)
                          else old(accepted) + [Frame(now, dataUrl, |dataUrl|)]
    {
      if |dataUrl| > limits.maxFrameBytes {
        return;
      }
      ghost var e := Frame(now, dataUrl, |dataUrl|);
      entries := entries + [Frame(now, dataUrl, |dataUrl|)];
      EvictEntries(now);
      accepted := accepted + [e];
      assert Init(accepted) == old(accepted);
    }

    method AddText(text: Text, now: int)
      requires Valid()
      modifies this
      ensures Valid() && qa == old(qa) && asked == old(asked)
      ensures accepted == if Trim(text) == [] || LatestText(old(entries)) == Some(Trim(text)) then old(accepted)
                          else old(accepted) + [Snippet(now, Trim(text), |Trim(text)|)]
    {
      var trimmed := Trim(text);
      if trimmed == [] {
        return;
      }
      if LatestText(entries) == Some(trimmed) {
        return;
      }
      TrimEndKeepsStart(TrimStart(text));
      ghost var e := Snippet(now, trimmed, |trimmed|);
      entries := entries + [Snippet(now, trimmed, |trimmed|)];
      EvictEntries(now);
      accepted := accepted + [e];
      assert Init(accepted) == old(accepted);
    }

    method AddQa(exchange: Exchange)
      requires Valid()
      modifies this
      ensures Valid() && asked == old(asked) + [exchange]
      ensures entries == old(entries) && accepted == old(accepted)
    {
      qa := qa + [exchange];
      if |qa| > limits.maxQaExchanges {
        qa := SliceLast(qa, limits.maxQaExchanges);
      }
      asked := asked + [exchange];
      assert Init(asked) == old(asked);
    }

    /** The source's private `evict`: four passes over `entries`, in place. */
    method EvictEntries(now: int)
      modifies this`entries
      ensures entries == Evict(old(entries), now, limits)
    {
      // 1. Rolling time window.
      var cutoff := now - limits.bufferWindowMs;
      entries := Since(entries, cutoff);
      // 2. Frame cap, then 3. snippet cap: drop the oldest of the kind.
      EvictOldest(FrameKind, limits.maxFrames);
      EvictOldest(TextKind, limits.maxTextSnippets);
      // 4. Byte budget: drop the oldest of any kind.
      ghost var before := entries;
      while Bytes(entries) > limits.maxBufferBytes && |entries| > 0
        invariant WithinBudget(entries, limits.maxBufferBytes) == WithinBudget(before, limits.maxBufferBytes)
        decreases |entries|
      {
        entries := entries[1..];
      }
    }

    method EvictOldest(k: Kind, cap: nat)
      modifies this`entries
      ensures entries == KeepNewest(old(entries), k, cap)
    {
      var ofKind := OfKind(entries, k);
      OfKindCount(entries, k);
      while |ofKind| > cap
        invariant ofKind == OfKind(entries, k)
        invariant KeepNewest(entries, k, cap) == KeepNewest(old(entries), k, cap)
        decreases |ofKind|
      {
        OfKindCount(entries, k);
        var oldest := ofKind[0];
        var i := IndexOf(entries, oldest);
        DropOldest(entries, k, cap, i);
        entries := entries[..i] + entries[i + 1..];
        ofKind := OfKind(entries, k);
      }
      OfKindCount(entries, k);
      KeepNewestNothingToDrop(entries, k, cap);
    }

    function FrameCount(): nat
      reads this
    {
      Count(entries, FrameKind)
    }

    /** Newest-last frames, at most `max` of them unless `max` is 0. */
    function RecentFrames(max: nat): (r: seq<Text>)
      reads this
      ensures IsSuffix(r, Contents(entries, FrameKind)) && |r| == Shown(FrameCount(), max)
      ensures NewestLast(r, entries, FrameKind)
    {
      ContentsNewestLast(entries, FrameKind, SliceLast(Contents(entries, FrameKind), max));
      SliceLast(Contents(entries, FrameKind), max)
    }

    function RecentTextSnippets(max: nat): (r: seq<Text>)
      reads this
      ensures IsSuffix(r, Contents(entries, TextKind)) && |r| == Shown(Count(entries, TextKind), max)
      ensures NewestLast(r, entries, TextKind)
    {
      ContentsNewestLast(entries, TextKind, SliceLast(Contents(entries, TextKind), max));
      SliceLast(Contents(entries, TextKind), max)
    }

    /** The newest frame. */
    function LatestFrame(): (f: Option<Text>)
      reads this
      ensures f == None <==> FrameCount() == 0
      ensures f.Some? ==> IsSuffix([f.value], Contents(entries, FrameKind)) && NewestLast([f.value], entries, FrameKind)
    {
      var frames := RecentFrames(1);
      if frames == [] then None else Some(Last(frames))
    }

    /** A snapshot of what a saved segment carries; the buffer itself is left alone. */
    function SaveSegment(now: int): (s: SavedSegment)
      reads this
      ensures s.frame == None <==> forall e :: e in entries ==> !e.Frame?
      ensures s.frame.Some? ==> IsSuffix([s.frame.value], Contents(entries, FrameKind))
      ensures forall i :: 0 <= i < |entries| && NewestFrame(entries, i) ==> s.frame == Some(entries[i].dataUrl)
      ensures |s.textSnippets| == Shown(Count(entries, TextKind), 3)
      ensures IsSuffix(s.textSnippets, Contents(entries, TextKind)) && NewestLast(s.textSnippets, entries, TextKind)
      ensures |s.qa| == Shown(|qa|, 3) && IsSuffix(s.qa, qa)
      ensures s.startedAt == startedAt && s.startedAt + s.durationMs == s.savedAt == now && s.frameCount == FrameCount()
    {
      SavedFrameIsNewest(entries, LatestFrame());
      SavedSegment(
        LatestFrame(),
        RecentTextSnippets(3),
        SliceLast(qa, 3),
        startedAt, now, now - startedAt, FrameCount())
    }

    /** Session end: nothing survives. */
    method Clear()
      requires Valid()
      modifies this
      ensures Valid() && entries == [] && qa == [] && accepted == [] && asked == []
    {
      entries, qa := [], [];
      accepted, asked := [], [];
    }
  }

  /** How many of n newest-last items a limit lets through: the limit 0 lets all of them. */
  function Shown(n: nat, max: nat): nat {
    if max == 0 || n < max then n else max
  }

  /** The image URLs or the texts of the entries of kind k, oldest first. */
  function Contents(es: seq<Entry>, k: Kind): (r: seq<Text>)
    ensures |r| == Count(es, k)
  {
    if es == [] then []
    else if es[0].Kind() == k then [if es[0].Frame? then es[0].dataUrl else es[0].text] + Contents(es[1..], k)
    else Contents(es[1..], k)
  }

  /** Where the entries of the kind stand, from a position on. */
  ghost function Places(es: seq<Entry>, from: nat, k: Kind): set<nat> {
    set i: nat | from <= i < |es| && es[i].Frame? == k.FrameKind?
  }

  lemma {:induction false} PlacesOneMore(es: seq<Entry>, from: nat, k: Kind)
    requires from < |es|
    ensures |Places(es, from, k)| == |Places(Init(es), from, k)| + if Last(es).Frame? == k.FrameKind? then 1 else 0
  {
    var n := |es| - 1;
    assert Places(es, from, k) ==
           Places(Init(es), from, k) + if Last(es).Frame? == k.FrameKind? then {n} else {};
  }

  /** What is counted are the entries of the kind, one by one. */
  lemma {:induction false} CountMeans(es: seq<Entry>, from: nat, k: Kind)
    requires from <= |es|
    ensures Count(es[from..], k) == |Places(es, from, k)|
    decreases |es|
  {
    if from == |es| {
      assert Places(es, from, k) == {};
    } else {
      CountMeans(Init(es), from, k);
      PlacesOneMore(es, from, k);
      assert es[from..] == Init(es)[from..] + [Last(es)];
      CountAppend(Init(es)[from..], [Last(es)], k);
    }
  }

  /** Counted one by one, no more frames and no more snippets are kept than the limits say. */
  lemma {:induction false} CapsHold(h: seq<Entry>, lim: Limits)
    ensures |Places(Run(h, lim), 0, FrameKind)| <= lim.maxFrames
    ensures |Places(Run(h, lim), 0, TextKind)| <= lim.maxTextSnippets
  {
    var kept := Run(h, lim);
    assert kept[0..] == kept;
    CountMeans(kept, 0, FrameKind);
    CountMeans(kept, 0, TextKind);
    RunWithinLimits(h, lim);
    assert Count(kept, FrameKind) <= lim.Cap(FrameKind) && Count(kept, TextKind) <= lim.Cap(TextKind);
  }

  /** The content of every entry is listed, at the number of entries of its kind that came before. */
  lemma {:induction false} ContentsAt(es: seq<Entry>, i: nat, k: Kind)
    requires i < |es| && es[i].Frame? == k.FrameKind?
    ensures Count(es[..i], k) + 1 + Count(es[i + 1..], k) == |Contents(es, k)|
    ensures Contents(es, k)[Count(es[..i], k)] == if es[i].Frame? then es[i].dataUrl else es[i].text
  {
    if i == 0 {
      assert es[..0] == [];
    } else {
      ContentsAt(es[1..], i - 1, k);
      assert es[..i] == [es[0]] + es[1..][..i - 1];
      CountCons(es[0], es[1..][..i - 1], k);
      assert es[1..][i..] == es[i + 1..];
    }
  }

  /** The list holds the contents of the newest entries of a kind, the newest of them last. */
  ghost predicate NewestLast(r: seq<Text>, es: seq<Entry>, k: Kind) {
    && |r| <= |Places(es, 0, k)|
    && forall i :: 0 <= i < |es| && es[i].Frame? == k.FrameKind? ==> IsListed(r, es, i, k)
  }

  /** Entry i is at its place from the end, unless the list is too short to reach it. */
  ghost predicate IsListed(r: seq<Text>, es: seq<Entry>, i: nat, k: Kind)
    requires i < |es|
  {
    var later := |Places(es, i + 1, k)|;
    later < |r| ==> r[|r| - 1 - later] == if es[i].Frame? then es[i].dataUrl else es[i].text
  }

  /** Whatever is cut off the front, the listed contents are those of the newest entries in order. */
  lemma {:induction false} ContentsNewestLast(es: seq<Entry>, k: Kind, r: seq<Text>)
    requires IsSuffix(r, Contents(es, k))
    ensures NewestLast(r, es, k)
  {
    CountMeans(es, 0, k);
    assert es[0..] == es;
    forall i | 0 <= i < |es| && es[i].Frame? == k.FrameKind?
      ensures IsListed(r, es, i, k)
    {
      ContentsListed(es, i, k, r);
    }
  }

  lemma {:induction false} ContentsListed(es: seq<Entry>, i: nat, k: Kind, r: seq<Text>)
    requires i < |es| && es[i].Frame? == k.FrameKind? && IsSuffix(r, Contents(es, k))
    ensures IsListed(r, es, i, k)
  {
    ContentsAt(es, i, k);
    CountMeans(es, i + 1, k);
    var later := |Places(es, i + 1, k)|;
    if later < |r| {
      SuffixAt(r, Contents(es, k), later);
    }
  }

  lemma {:induction false} SuffixAt(a: seq<Text>, b: seq<Text>, fromEnd: nat)
    requires IsSuffix(a, b) && fromEnd < |a|
    ensures a[|a| - 1 - fromEnd] == b[|b| - 1 - fromEnd]
  {}

  /** Entry i is a frame, and no frame was stored after it. */
  predicate NewestFrame(es: seq<Entry>, i: nat)
    requires i < |es|
  {
    es[i].Frame? && forall j :: i < j < |es| ==> !es[j].Frame?
  }

  lemma {:induction false} SavedFrameIsNewest(es: seq<Entry>, f: Option<Text>)
    requires f == None <==> Count(es, FrameKind) == 0
    requires f.Some? ==> NewestLast([f.value], es, FrameKind)
    ensures f == None <==> forall e :: e in es ==> !e.Frame?
    ensures forall i :: 0 <= i < |es| && NewestFrame(es, i) ==> f == Some(es[i].dataUrl)
  {
    OfKindCount(es, FrameKind);
    if f == None {
      assert OfKind(es, FrameKind) == [];
    } else {
      assert OfKind(es, FrameKind)[0] in es;
      forall i | 0 <= i < |es| && NewestFrame(es, i)
        ensures f == Some(es[i].dataUrl)
      {
        assert Places(es, i + 1, FrameKind) == {};
        assert IsListed([f.value], es, i, FrameKind);
      }
    }
  }

  lemma {:induction false} TrimEndKeepsStart(s: Text)
    requires s == [] || !IsWhitespace(s[0])
    ensures TrimEnd(s) == [] || !IsWhitespace(TrimEnd(s)[0])
  {}

  function IndexOf(es: seq<Entry>, e: Entry): (i: nat)
    requires e in es
    ensures i < |es| && es[i] == e && e !in es[..i]
  {
    if es[0] == e then 0 else IndexOf(es[1..], e) + 1
  }

  /** Splicing out the oldest entry of an over-full kind does not change what capping leaves. */
  lemma {:induction false} DropOldest(es: seq<Entry>, k: Kind, cap: nat, i: nat)
    requires i < |es| && Count(es, k) > cap
    requires OfKind(es, k) != [] && es[i] == OfKind(es, k)[0] && es[i] !in es[..i]
    ensures KeepNewest(es[..i] + es[i + 1..], k, cap) == KeepNewest(es, k, cap)
    ensures OfKind(es[..i] + es[i + 1..], k) == OfKind(es, k)[1..]
  {
    OfKindCount(es, k);
    assert es[i].Kind() == k;
    if i == 0 {
      assert es[..0] + es[1..] == es[1..];
    } else {
      assert es[0] in es[..i];
      assert es[0].Kind() != k;
      var rest := es[1..];
      assert rest[i - 1] == es[i] && rest[..i - 1] == es[1..i];
      assert es[..i] + es[i + 1..] == [es[0]] + (rest[..i - 1] + rest[i..]);
      DropOldest(rest, k, cap, i - 1);
    }
  }

  lemma {:induction false} KeepNewestNothingToDrop(es: seq<Entry>, k: Kind, cap: nat)
    requires Count(es, k) <= cap
    ensures KeepNewest(es, k, cap) == es
  {
    if es != [] {
      KeepNewestNothingToDrop(es[1..], k, cap);
    }
  }
}
