/** Captures, deletions and a cleanup run interleaving step by step over one clock: why a cleanup that
    lists the table before it lists the store does not remove the blob of a capture in flight. */
module CleanupTiming {
  import opened Common

  /** An image's blob or its thumbnail; image ids are fresh UUIDs. */
  datatype Key = Key(image: string, thumb: bool)

  /** When the first blob of the image was put, and whether its row was ever inserted. */
  datatype Capture = Capture(first: int, inserted: bool)

  /** Where a cleanup run is: its `now`, then the referenced keys it read, then the queued keys, then
      the objects it listed with the modification times it was told. */
  datatype Cleanup =
    | Idle
    | Began(now: int)
    | ReadRows(now: int, valid: set<Key>)
    | ReadQueue(now: int, valid: set<Key>, queued: set<Key>)
    | Scanning(now: int, valid: set<Key>, queued: set<Key>, listed: map<Key, Option<int>>)

  datatype State = State(
    clock: int,
    objects: map<Key, int>,
    captures: map<string, Capture>,
    rows: map<string, bool>,
    queue: set<Key>,
    cleanup: Cleanup,
    swept: set<Key>)
  {
    /** A row refers to its blob, and to its thumbnail if it has one. */
    predicate Referenced(k: Key) {
      k.image in rows && (k.thumb ==> rows[k.image])
    }

    function ReferencedKeys(): set<Key> {
      set i, b | i in rows && b in {false, true} && (b ==> rows[i]) :: Key(i, b)
    }
  }

  const EMPTY := State(0, map[], map[], map[], {}, Idle, {})

  /** The age guard, how long after its first put a capture may insert its row, and whether the store
      reports modification times. */
  datatype Config = Config(minAge: int, insertWithin: int, timed: bool)

  datatype Step =
    | Tick(ms: nat)
    | PutFull(image: string)
    | PutThumb(image: string)
    | InsertRow(image: string, hasThumb: bool)
    | Rewrite(key: Key)
    | RemoveBlob(key: Key)
    | RemoveRow(image: string)
    | Tombstone(key: Key)
    | Untombstone(key: Key)
    | CleanupBegin
    | CleanupReadRows
    | CleanupReadQueue
    | CleanupList
    | CleanupSweep(key: Key)
    | CleanupEnd

  predicate OldEnough(lastModified: Option<int>, now: int, cfg: Config) {
    lastModified.None? || now - lastModified.value >= cfg.minAge
  }

  predicate Enabled(s: State, step: Step, cfg: Config) {
    match step
    case PutFull(i) => i !in s.captures
    case PutThumb(i) => i in s.captures && !s.captures[i].inserted
    case InsertRow(i, _) =>
      i in s.captures && !s.captures[i].inserted && s.clock < s.captures[i].first + cfg.insertWithin
    case Rewrite(k) => k in s.objects
    case CleanupBegin => s.cleanup.Idle?
    case CleanupReadRows => s.cleanup.Began?
    case CleanupReadQueue => s.cleanup.ReadRows?
    case CleanupList => s.cleanup.ReadQueue?
    case CleanupSweep(k) =>
      && s.cleanup.Scanning?
      && k in s.cleanup.listed && k !in s.cleanup.valid && k !in s.cleanup.queued
      && OldEnough(s.cleanup.listed[k], s.cleanup.now, cfg)
    case _ => true
  }

  function Apply(s: State, step: Step, cfg: Config): State
    requires Enabled(s, step, cfg)
  {
    match step
    case Tick(ms) => s.(clock := s.clock + ms)
    case PutFull(i) =>
      s.(captures := s.captures[i := Capture(s.clock, false)], objects := s.objects[Key(i, false) := s.clock])
    case PutThumb(i) => s.(objects := s.objects[Key(i, true) := s.clock])
    case InsertRow(i, hasThumb) =>
      s.(captures := s.captures[i := s.captures[i].(inserted := true)], rows := s.rows[i := hasThumb])
    case Rewrite(k) => s.(objects := s.objects[k := s.clock])
    case RemoveBlob(k) => s.(objects := s.objects - {k})
    case RemoveRow(i) => s.(rows := s.rows - {i})
    case Tombstone(k) => s.(queue := s.queue + {k})
    case Untombstone(k) => s.(queue := s.queue - {k})
    case CleanupBegin => s.(cleanup := Began(s.clock))
    case CleanupReadRows => s.(cleanup := ReadRows(s.cleanup.now, s.ReferencedKeys()))
    case CleanupReadQueue => s.(cleanup := ReadQueue(s.cleanup.now, s.cleanup.valid, s.queue))
    case CleanupList =>
      s.(cleanup := Scanning(s.cleanup.now, s.cleanup.valid, s.cleanup.queued,
                             map k | k in s.objects :: if cfg.timed then Some(s.objects[k]) else None))
    case CleanupSweep(k) => s.(objects := s.objects - {k}, swept := s.swept + {k})
    case CleanupEnd => s.(cleanup := Idle)
  }

  predicate Legal(steps: seq<Step>, cfg: Config)
    decreases |steps|, 0
  {
    steps == [] || (Legal(Init(steps), cfg) && Enabled(Exec(Init(steps), cfg), Last(steps), cfg))
  }

  /** The state after a legal sequence of steps from the empty system. */
  function Exec(steps: seq<Step>, cfg: Config): State
    requires Legal(steps, cfg)
    decreases |steps|, 1
  {
    if steps == [] then EMPTY else Apply(Exec(Init(steps), cfg), Last(steps), cfg)
  }

  // ---------------------------------------------------------------- the invariant

  /** Image i was first put long enough ago that its row can no longer arrive. */
  predicate Settled(s: State, i: string, at: int, cfg: Config) {
    i in s.captures && s.captures[i].first + cfg.minAge <= at
  }

  /** No stored or listed object is older than its image's first put. */
  ghost predicate TimesOk(s: State) {
    && (forall i :: i in s.captures ==> s.captures[i].first <= s.clock)
    && (forall i :: i in s.rows ==> i in s.captures && s.captures[i].inserted)
    && (forall k: Key :: k in s.objects ==>
          k.image in s.captures && s.captures[k.image].first <= s.objects[k] <= s.clock)
    && (s.cleanup.Scanning? ==>
          forall k: Key :: k in s.cleanup.listed ==>
            && k.image in s.captures && s.cleanup.listed[k].Some?
            && s.captures[k.image].first <= s.cleanup.listed[k].value)
  }

  /** The snapshot of referenced keys still covers every settled image. */
  ghost predicate SnapshotOk(s: State, cfg: Config) {
    && (!s.cleanup.Idle? ==> s.cleanup.now <= s.clock)
    && (!s.cleanup.Idle? && !s.cleanup.Began? ==>
          forall k: Key :: Settled(s, k.image, s.cleanup.now, cfg) && s.Referenced(k) ==> k in s.cleanup.valid)
  }

  ghost predicate SweptOk(s: State, cfg: Config) {
    forall k: Key :: k in s.swept ==> Settled(s, k.image, s.clock, cfg) && !s.Referenced(k)
  }

  ghost predicate Inv(s: State, cfg: Config) {
    TimesOk(s) && SnapshotOk(s, cfg) && SweptOk(s, cfg)
  }

  lemma {:induction false} TimesStep(s: State, step: Step, cfg: Config)
    requires cfg.timed && TimesOk(s) && Enabled(s, step, cfg)
    ensures TimesOk(Apply(s, step, cfg))
  {}

  lemma {:induction false} SnapshotStep(s: State, step: Step, cfg: Config)
    requires cfg.insertWithin <= cfg.minAge
    requires TimesOk(s) && SnapshotOk(s, cfg) && Enabled(s, step, cfg)
    ensures SnapshotOk(Apply(s, step, cfg), cfg)
  {
    var s' := Apply(s, step, cfg);
    if !s'.cleanup.Idle? && !s'.cleanup.Began? {
      forall k: Key | Settled(s', k.image, s'.cleanup.now, cfg) && s'.Referenced(k)
        ensures k in s'.cleanup.valid
      {
        if step.CleanupReadRows? {
          assert k == Key(k.image, k.thumb) && k.thumb in {false, true};
        } else {
          assert Settled(s, k.image, s.cleanup.now, cfg);
        }
      }
    }
  }

  lemma {:induction false} SweptStep(s: State, step: Step, cfg: Config)
    requires cfg.timed && cfg.insertWithin <= cfg.minAge
    requires Inv(s, cfg) && Enabled(s, step, cfg)
    ensures SweptOk(Apply(s, step, cfg), cfg)
  {
    if step.CleanupSweep? {
      assert Settled(s, step.key.image, s.cleanup.now, cfg);
    }
  }

  lemma {:induction false} InvStep(s: State, step: Step, cfg: Config)
    requires cfg.timed && cfg.insertWithin <= cfg.minAge
    requires Inv(s, cfg) && Enabled(s, step, cfg)
    ensures Inv(Apply(s, step, cfg), cfg)
  {
    TimesStep(s, step, cfg);
    SnapshotStep(s, step, cfg);
    SweptStep(s, step, cfg);
  }

  lemma {:induction false} InvHolds(steps: seq<Step>, cfg: Config)
    requires cfg.timed && cfg.insertWithin <= cfg.minAge && Legal(steps, cfg)
    ensures Inv(Exec(steps, cfg), cfg)
  {
    if steps != [] {
      InvHolds(Init(steps), cfg);
      InvStep(Exec(Init(steps), cfg), Last(steps), cfg);
    }
  }

  // ---------------------------------------------------------------- safety

  /** Nothing the orphan loop ever removed is referenced. */
  ghost predicate Safe(s: State) {
    forall k: Key :: k in s.swept ==> !s.Referenced(k)
  }

  lemma {:induction false} SweptForever(steps: seq<Step>, n: nat, cfg: Config)
    requires Legal(steps, cfg) && n <= |steps|
    ensures Legal(steps[..n], cfg) && Exec(steps[..n], cfg).swept <= Exec(steps, cfg).swept
  {
    if n < |steps| {
      SweptForever(Init(steps), n, cfg);
      assert Init(steps)[..n] == steps[..n];
    } else {
      assert steps[..n] == steps;
    }
  }

  /** MAIN: with modification times, and rows inserted less than the age guard after the first put, no
      interleaving makes the orphan loop remove a key that is referenced at any later point. */
  lemma {:induction false} NeverReferencedAgain(steps: seq<Step>, n: nat, k: Key, cfg: Config)
    requires cfg.timed && cfg.insertWithin <= cfg.minAge
    requires Legal(steps, cfg) && n <= |steps| && Legal(steps[..n], cfg) && k in Exec(steps[..n], cfg).swept
    ensures !Exec(steps, cfg).Referenced(k)
  {
    InvHolds(steps, cfg);
    SweptForever(steps, n, cfg);
  }

  lemma {:induction false} LegalAppend(steps: seq<Step>, s: State, step: Step, cfg: Config) returns (steps': seq<Step>)
    requires Legal(steps, cfg) && Exec(steps, cfg) == s && Enabled(s, step, cfg)
    ensures steps' == steps + [step] && Legal(steps', cfg) && Exec(steps', cfg) == Apply(s, step, cfg)
  {
    steps' := steps + [step];
    assert Init(steps') == steps;
  }

  /** A capture has put its blob, `wait` has passed, and a cleanup has read an empty table. */
  function Scanned(wait: nat, cfg: Config): State {
    var k := Key("i", false);
    EMPTY.(clock := wait, captures := map["i" := Capture(0, false)], objects := map[k := 0],
           cleanup := Scanning(wait, {}, {}, map[k := if cfg.timed then Some(0) else None]))
  }

  lemma {:induction false} BeginBeforeRow(wait: nat, cfg: Config) returns (steps: seq<Step>)
    ensures Legal(steps, cfg) && Exec(steps, cfg) == Scanned(wait, cfg).(cleanup := Began(wait))
  {
    steps := LegalAppend([], EMPTY, PutFull("i"), cfg);
    var s := EMPTY.(captures := map["i" := Capture(0, false)], objects := map[Key("i", false) := 0]);
    steps := LegalAppend(steps, s, Tick(wait), cfg);
    s := s.(clock := wait);
    steps := LegalAppend(steps, s, CleanupBegin, cfg);
  }

  lemma {:induction false} ScanBeforeRow(wait: nat, cfg: Config) returns (steps: seq<Step>)
    ensures Legal(steps, cfg) && Exec(steps, cfg) == Scanned(wait, cfg)
  {
    steps := BeginBeforeRow(wait, cfg);
    var s := Scanned(wait, cfg).(cleanup := Began(wait));
    assert s.ReferencedKeys() == {};
    steps := LegalAppend(steps, s, CleanupReadRows, cfg);
    s := s.(cleanup := ReadRows(wait, {}));
    steps := LegalAppend(steps, s, CleanupReadQueue, cfg);
    s := s.(cleanup := ReadQueue(wait, {}, {}));
    steps := LegalAppend(steps, s, CleanupList, cfg);
    assert Exec(steps, cfg).cleanup.listed == Scanned(wait, cfg).cleanup.listed;
  }

  /** A run that sweeps the blob of a capture whose row arrives just too late. */
  lemma {:induction false} LateRowIsUnsafe(wait: nat, cfg: Config) returns (steps: seq<Step>)
    requires wait < cfg.insertWithin && (!cfg.timed || wait >= cfg.minAge)
    ensures Legal(steps, cfg) && !Safe(Exec(steps, cfg))
  {
    var k := Key("i", false);
    steps := ScanBeforeRow(wait, cfg);
    steps := LegalAppend(steps, Scanned(wait, cfg), CleanupSweep(k), cfg);
    steps := LegalAppend(steps, Exec(steps, cfg), InsertRow("i", false), cfg);
    assert k in Exec(steps, cfg).swept && Exec(steps, cfg).Referenced(k);
  }

  /** MAIN: the exact condition. Every run is safe if and only if no row can be inserted after its first
      put at all, or the store reports times and rows arrive within the age guard. */
  lemma {:induction false} SafeIff(cfg: Config)
    ensures (forall steps :: Legal(steps, cfg) ==> Safe(Exec(steps, cfg))) <==>
            cfg.insertWithin <= 0 || (cfg.timed && cfg.insertWithin <= cfg.minAge)
  {
    if cfg.insertWithin <= 0 {
      forall steps | Legal(steps, cfg)
        ensures Safe(Exec(steps, cfg))
      {
        NoRows(steps, cfg);
      }
    } else if cfg.timed && cfg.insertWithin <= cfg.minAge {
      forall steps | Legal(steps, cfg)
        ensures Safe(Exec(steps, cfg))
      {
        InvHolds(steps, cfg);
      }
    } else {
      var wait := if cfg.timed && cfg.minAge > 0 then cfg.minAge else 0;
      var steps := LateRowIsUnsafe(wait, cfg);
    }
  }

  lemma {:induction false} NoRows(steps: seq<Step>, cfg: Config)
    requires cfg.insertWithin <= 0 && Legal(steps, cfg)
    ensures var s := Exec(steps, cfg);
            s.rows == map[] && forall i :: i in s.captures ==> s.captures[i].first <= s.clock
  {
    if steps != [] {
      NoRows(Init(steps), cfg);
    }
  }
}
