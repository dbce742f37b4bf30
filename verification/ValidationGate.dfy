/** The validation gate: a sequential runner that cascades skips from failed or blocked required
    checks, and the verdict computed from its report. */
module ValidationGate {
  import opened Common

  datatype Severity = P0 | P1 | P2 | P3
  datatype Category =
    | Build | Typecheck | Unit | Integration | Functional | Isolation | Security | Adversarial
    | Privacy | Media | Backup | Recovery | Performance | Operations
  datatype Status = Passed | Failed | Blocked | Skipped | Degraded
  datatype SkipReason = Cascade | ExplicitOptional | NotApplicable

  /** Outcomes from best to worst; `Rank` is the precedence. */
  datatype Outcome = PASS | CONDITIONAL_PASS | BLOCKED | FAIL
  {
    function Rank(): nat {
      match this
      case PASS => 0
      case CONDITIONAL_PASS => 1
      case BLOCKED => 2
      case FAIL => 3
    }
  }

  predicate Protected(c: Category) {
    c in {Security, Privacy, Isolation, Adversarial, Media, Backup, Recovery}
  }

  datatype CheckResult = CheckResult(
    id: string, category: Category, severity: Severity, required: bool,
    status: Status, skipReason: Option<SkipReason>, causedBy: Option<string>)

  // ---------------------------------------------------------------- the verdict

  /** A required check that failed or blocked: what may legitimately cause a cascade. */
  predicate IsCause(c: CheckResult) {
    c.required && (c.status == Failed || c.status == Blocked)
  }

  predicate FirstWithId(checks: seq<CheckResult>, j: nat, id: string) {
    j < |checks| && checks[j].id == id && forall k :: 0 <= k < j ==> checks[k].id != id
  }

  /** The id resolves to an earlier cause. */
  ghost predicate NamesCause(checks: seq<CheckResult>, i: nat, id: string) {
    exists j :: 0 <= j < i && FirstWithId(checks, j, id) && IsCause(checks[j])
  }

  /** The skip of check i names the first check of that id, which is an earlier cause. */
  ghost predicate ValidCascade(checks: seq<CheckResult>, i: nat)
    requires i < |checks|
  {
    var c := checks[i];
    && c.skipReason == Some(Cascade)
    && c.causedBy.Some? && c.causedBy.value != ""
    && NamesCause(checks, i, c.causedBy.value)
  }

  /** What check i alone makes of the verdict. */
  ghost function Contribution(checks: seq<CheckResult>, i: nat): Outcome
    requires i < |checks|
  {
    var c := checks[i];
    match c.status
    case Passed => PASS
    case Degraded => CONDITIONAL_PASS
    case Blocked => if c.required then BLOCKED else CONDITIONAL_PASS
    case Skipped => if c.required && !ValidCascade(checks, i) then BLOCKED else PASS
    case Failed =>
      if c.severity in {P0, P1} || (c.severity == P2 && c.required) || Protected(c.category)
      then FAIL else CONDITIONAL_PASS
  }

  /** `o` is the worst contribution of the list (PASS for the empty list). */
  ghost predicate IsWorst(checks: seq<CheckResult>, o: Outcome) {
    && (forall i :: 0 <= i < |checks| ==> Contribution(checks, i).Rank() <= o.Rank())
    && (o == PASS || exists i :: 0 <= i < |checks| && Contribution(checks, i) == o)
  }

  ghost predicate IsFirstPositions(checks: seq<CheckResult>, positions: map<string, nat>) {
    && (forall id :: id in positions ==> FirstWithId(checks, positions[id], id))
    && (forall k :: 0 <= k < |checks| ==> checks[k].id in positions)
  }

  method FirstPositions(checks: seq<CheckResult>) returns (positions: map<string, nat>)
    ensures IsFirstPositions(checks, positions)
  {
    positions := map[];
    for i := 0 to |checks|
      invariant forall id :: id in positions ==> FirstWithId(checks, positions[id], id) && positions[id] < i
      invariant forall k :: 0 <= k < i ==> checks[k].id in positions
    {
      if checks[i].id !in positions {
        positions := positions[checks[i].id := i];
      }
    }
  }

  /** The three flags of the source, set in one pass over a map of first positions, name the
      worst contribution. */
  method ComputeOutcome(checks: seq<CheckResult>) returns (outcome: Outcome)
    ensures IsWorst(checks, outcome)
  {
    var positions := FirstPositions(checks);
    var failed, blocked, conditional := false, false, false;
    for i := 0 to |checks|
      invariant Contributed(checks, i, FAIL) == failed
      invariant Contributed(checks, i, BLOCKED) == blocked
      invariant Contributed(checks, i, CONDITIONAL_PASS) == conditional
    {
      var c := checks[i];
      if c.status == Failed {
        if c.severity == P0 || c.severity == P1 {
          failed := true;
        } else if c.severity == P2 && c.required {
          failed := true;
        } else if Protected(c.category) {
          failed := true;
        } else {
          conditional := true;
        }
      } else if c.status == Blocked {
        if c.required {
          blocked := true;
        } else {
          conditional := true;
        }
      } else if c.status == Skipped {
        if c.required {
          var validCascade := false;
          if c.skipReason == Some(Cascade) && c.causedBy.Some? && c.causedBy.value != "" {
            var id := c.causedBy.value;
            if id in positions {
              var j := positions[id];
              validCascade := j < i && IsCause(checks[j]);
            }
          }
          CascadeByPositions(checks, i, positions, validCascade);
          if !validCascade {
            blocked := true;
          }
        }
      } else if c.status == Degraded {
        conditional := true;
      }
      ContributedStep(checks, i);
    }
    WorstContributed(checks);
    outcome :=
      if failed then FAIL
      else if blocked then BLOCKED
      else if conditional then CONDITIONAL_PASS
      else PASS;
  }

  /** Some check before position n contributes o. */
  ghost predicate Contributed(checks: seq<CheckResult>, n: nat, o: Outcome)
    requires n <= |checks|
  {
    exists k :: 0 <= k < n && Contribution(checks, k) == o
  }

  lemma {:induction false} ContributedStep(checks: seq<CheckResult>, n: nat)
    requires n < |checks|
    ensures forall o :: Contributed(checks, n + 1, o) == (Contributed(checks, n, o) || Contribution(checks, n) == o)
  {
    forall o
      ensures Contributed(checks, n + 1, o) == (Contributed(checks, n, o) || Contribution(checks, n) == o)
    {
      if Contributed(checks, n + 1, o) {
        var k :| 0 <= k < n + 1 && Contribution(checks, k) == o;
        assert k < n ==> Contributed(checks, n, o);
      }
    }
  }

  lemma {:induction false} WorstContributed(checks: seq<CheckResult>)
    ensures IsWorst(checks,
                    if Contributed(checks, |checks|, FAIL) then FAIL
                    else if Contributed(checks, |checks|, BLOCKED) then BLOCKED
                    else if Contributed(checks, |checks|, CONDITIONAL_PASS) then CONDITIONAL_PASS
                    else PASS)
  {
    forall i | 0 <= i < |checks|
      ensures Contributed(checks, |checks|, Contribution(checks, i))
    {}
  }

  /** Looking the blamed id up in the map of first positions decides the cascade. */
  lemma {:induction false} CascadeByPositions(checks: seq<CheckResult>, i: nat, positions: map<string, nat>,
                                              valid: bool)
    requires i < |checks|
    requires IsFirstPositions(checks, positions)
    requires var c := checks[i];
             valid == (c.skipReason == Some(Cascade) && c.causedBy.Some? && c.causedBy.value != ""
                       && c.causedBy.value in positions && positions[c.causedBy.value] < i
                       && IsCause(checks[positions[c.causedBy.value]]))
    ensures valid <==> ValidCascade(checks, i)
  {
    if valid {
      assert FirstWithId(checks, positions[checks[i].causedBy.value], checks[i].causedBy.value);
    }
    if ValidCascade(checks, i) {
      var id := checks[i].causedBy.value;
      var j :| 0 <= j < i && FirstWithId(checks, j, id) && IsCause(checks[j]);
      assert checks[j].id in positions;
      assert j == positions[id];
    }
  }

  /** MAIN: the verdict, spelled out. A failed check fails the gate if it is P0, P1, required P2 or of one of
      the seven protected categories; a required check blocks it by being blocked, or skipped without an
      earlier required check, the first of the id it blames, that failed or blocked; and any other failure,
      blocked check or degraded one makes it conditional. */
  lemma {:induction false} VerdictMeans(checks: seq<CheckResult>, o: Outcome)
    requires IsWorst(checks, o)
    ensures o == FAIL <==> exists i :: 0 <= i < |checks| && Fails(checks[i])
    ensures o == BLOCKED <==>
            && (forall i :: 0 <= i < |checks| ==> !Fails(checks[i]))
            && exists i :: 0 <= i < |checks| && Blocks(checks, i)
    ensures o == PASS <==>
            && (forall i :: 0 <= i < |checks| ==> !Fails(checks[i]) && !Blocks(checks, i))
            && forall i :: 0 <= i < |checks| ==>
                 checks[i].status == Passed || checks[i].status == Skipped
  {
    forall i | 0 <= i < |checks|
      ensures Fails(checks[i]) <==> Contribution(checks, i) == FAIL
      ensures Blocks(checks, i) <==> Contribution(checks, i) == BLOCKED
      ensures Contribution(checks, i) == PASS <==>
              !Blocks(checks, i) && (checks[i].status == Passed || checks[i].status == Skipped)
    {
      ContributionMeans(checks, i);
    }
  }

  ghost predicate Fails(c: CheckResult) {
    && c.status == Failed
    && (|| c.severity == P0 || c.severity == P1 || (c.severity == P2 && c.required)
        || c.category == Security || c.category == Privacy || c.category == Isolation || c.category == Adversarial
        || c.category == Media || c.category == Backup || c.category == Recovery)
  }

  ghost predicate Blocks(checks: seq<CheckResult>, i: nat)
    requires i < |checks|
  {
    var c := checks[i];
    && c.required
    && (|| c.status == Blocked
        || (&& c.status == Skipped
            && !(&& c.skipReason == Some(Cascade) && c.causedBy.Some? && c.causedBy.value != ""
                 && exists j ::
                      && 0 <= j < i && checks[j].id == c.causedBy.value
                      && (forall k :: 0 <= k < j ==> checks[k].id != c.causedBy.value)
                      && checks[j].required && checks[j].status in {Failed, Blocked})))
  }

  lemma {:induction false} ContributionMeans(checks: seq<CheckResult>, i: nat)
    requires i < |checks|
    ensures Fails(checks[i]) <==> Contribution(checks, i) == FAIL
    ensures Blocks(checks, i) <==> Contribution(checks, i) == BLOCKED
    ensures Contribution(checks, i) == PASS <==>
            !Blocks(checks, i) && (checks[i].status == Passed || checks[i].status == Skipped)
  {
    if ValidCascade(checks, i) {
      var j :| 0 <= j < i && FirstWithId(checks, j, checks[i].causedBy.value) && IsCause(checks[j]);
      assert checks[j].id == checks[i].causedBy.value;
    }
    if j :| 0 <= j < i && checks[i].causedBy.Some? && checks[j].id == checks[i].causedBy.value
            && (forall k :: 0 <= k < j ==> checks[k].id != checks[i].causedBy.value)
            && checks[j].required && checks[j].status in {Failed, Blocked} {
      assert FirstWithId(checks, j, checks[i].causedBy.value) && IsCause(checks[j]);
    }
  }

  datatype Mode = Pr | Predeploy | Deploy | Postdeploy | RecoveryMode

  /** Exit 0 means the verdict is PASS or CONDITIONAL_PASS; only a blocked operator mode exits 2. */
  function ExitCodeFor(outcome: Outcome, mode: Mode): (code: int)
    ensures code == 0 <==> outcome.Rank() <= 1
    ensures code == 2 <==> outcome == BLOCKED && mode != Pr
  {
    match outcome
    case PASS => 0
    case CONDITIONAL_PASS => 0
    case FAIL => 1
    case BLOCKED => if mode == Pr then 1 else 2
  }

  /** A report determines its verdict, so `IsWorst` leaves `ComputeOutcome` no choice. */
  lemma {:induction false} WorstIsUnique(checks: seq<CheckResult>, o: Outcome, o': Outcome)
    requires IsWorst(checks, o) && IsWorst(checks, o')
    ensures o == o'
  {}

  /** A check's contribution only looks back, so nothing appended later can change it. */
  lemma {:induction false} ContributionStable(checks: seq<CheckResult>, more: seq<CheckResult>, i: nat)
    requires i < |checks|
    ensures Contribution(checks + more, i) == Contribution(checks, i)
  {
    if ValidCascade(checks, i) {
      var j :| 0 <= j < i && FirstWithId(checks, j, checks[i].causedBy.value) && IsCause(checks[j]);
      assert FirstWithId(checks + more, j, checks[i].causedBy.value);
    }
    assert (checks + more)[i] == checks[i];
    if ValidCascade(checks + more, i) {
      var j :| 0 <= j < i && FirstWithId(checks + more, j, checks[i].causedBy.value) && IsCause((checks + more)[j]);
      assert forall k :: 0 <= k <= j ==> (checks + more)[k] == checks[k];
      assert FirstWithId(checks, j, checks[i].causedBy.value);
    }
  }

  /** MAIN: appending checks to a report never improves its verdict. */
  lemma {:induction false} VerdictNeverImproves(checks: seq<CheckResult>, more: seq<CheckResult>,
                                                o: Outcome, o': Outcome)
    requires IsWorst(checks, o) && IsWorst(checks + more, o')
    ensures o.Rank() <= o'.Rank()
  {
    if o != PASS {
      var i :| 0 <= i < |checks| && Contribution(checks, i) == o;
      ContributionStable(checks, more, i);
    }
  }

  lemma {:induction false} FirstShifts(c: CheckResult, checks: seq<CheckResult>, j: nat, id: string)
    ensures FirstWithId([c] + checks, j + 1, id) <==> c.id != id && FirstWithId(checks, j, id)
  {
    var all := [c] + checks;
    assert all[0] == c && forall k :: 0 <= k < |checks| ==> all[k + 1] == checks[k];
    if FirstWithId(all, j + 1, id) {
      forall k | 0 <= k < j
        ensures checks[k].id != id
      {
        assert all[k + 1].id != id;
      }
    }
  }

  lemma {:induction false} NameBefore(c: CheckResult, checks: seq<CheckResult>, i: nat, id: string)
    requires i < |checks| && NamesCause([c] + checks, i + 1, id)
    ensures if c.id == id then IsCause(c) else NamesCause(checks, i, id)
  {
    var all := [c] + checks;
    var j :| 0 <= j < i + 1 && FirstWithId(all, j, id) && IsCause(all[j]);
    if j > 0 {
      FirstShifts(c, checks, j - 1, id);
      assert all[j] == checks[j - 1];
    }
  }

  lemma {:induction false} NameAfter(c: CheckResult, checks: seq<CheckResult>, i: nat, id: string)
    requires i < |checks| && if c.id == id then IsCause(c) else NamesCause(checks, i, id)
    ensures NamesCause([c] + checks, i + 1, id)
  {
    var all := [c] + checks;
    if c.id == id {
      assert FirstWithId(all, 0, id);
    } else {
      var j :| 0 <= j < i && FirstWithId(checks, j, id) && IsCause(checks[j]);
      FirstShifts(c, checks, j, id);
      assert all[j + 1] == checks[j];
    }
  }

  lemma {:induction false} PrependedName(c: CheckResult, checks: seq<CheckResult>, i: nat, id: string)
    requires i < |checks|
    ensures NamesCause([c] + checks, i + 1, id) <==> if c.id == id then IsCause(c) else NamesCause(checks, i, id)
  {
    if NamesCause([c] + checks, i + 1, id) {
      NameBefore(c, checks, i, id);
    }
    if if c.id == id then IsCause(c) else NamesCause(checks, i, id) {
      NameAfter(c, checks, i, id);
    }
  }

  /** A check put in front changes the validity of just those cascades that blame its id. */
  lemma {:induction false} PrependedCascade(c: CheckResult, checks: seq<CheckResult>, i: nat)
    requires i < |checks|
    ensures ValidCascade([c] + checks, i + 1) <==>
            if checks[i].causedBy == Some(c.id) then checks[i].skipReason == Some(Cascade) && c.id != "" && IsCause(c)
            else ValidCascade(checks, i)
  {
    assert ([c] + checks)[i + 1] == checks[i];
    if checks[i].causedBy.Some? {
      PrependedName(c, checks, i, checks[i].causedBy.value);
    }
  }

  /** Check i blocks the verdict only by a cascade that blames this id. */
  predicate BlamesOnly(r: CheckResult, id: string) {
    r.required && r.status == Skipped && r.skipReason == Some(Cascade) && r.causedBy == Some(id)
  }

  /** What a check in front changes of the contribution of a later one. */
  lemma {:induction false} PrependedContribution(c: CheckResult, checks: seq<CheckResult>, i: nat)
    requires i < |checks|
    ensures var before, after := Contribution(checks, i), Contribution([c] + checks, i + 1);
            && (before != BLOCKED && (before != PASS || IsCause(c)) ==> after == before)
            && (before == BLOCKED ==>
                  after == if BlamesOnly(checks[i], c.id) && c.id != "" && IsCause(c) then PASS else BLOCKED)
  {
    assert ([c] + checks)[i + 1] == checks[i];
    PrependedCascade(c, checks, i);
  }

  /** A failed check that the verdict waves through. */
  predicate WaivedFailure(c: CheckResult) {
    c.status == Failed && Waived(c.severity, c.category, c.required)
  }

  /** What a check in front must be to improve a blocked verdict: a failed required check that is itself
      waved through, whose id every blocking check blames. */
  ghost predicate Legitimises(c: CheckResult, checks: seq<CheckResult>) {
    && WaivedFailure(c) && c.id != ""
    && forall i :: 0 <= i < |checks| && Contribution(checks, i) == BLOCKED ==> BlamesOnly(checks[i], c.id)
  }

  lemma {:induction false} FrontContribution(c: CheckResult, checks: seq<CheckResult>)
    ensures IsCause(c) && Contribution([c] + checks, 0).Rank() <= 1 <==> WaivedFailure(c)
  {}

  lemma {:induction false} ImprovedIsLegitimate(c: CheckResult, checks: seq<CheckResult>, o: Outcome, o': Outcome)
    requires IsWorst(checks, o) && IsWorst([c] + checks, o') && o'.Rank() < o.Rank()
    ensures o == BLOCKED && Legitimises(c, checks)
  {
    var all := [c] + checks;
    FrontContribution(c, checks);
    assert Contribution(all, 0).Rank() <= o'.Rank();
    var i :| 0 <= i < |checks| && Contribution(checks, i) == o;
    PrependedContribution(c, checks, i);
    assert Contribution(all, i + 1).Rank() <= o'.Rank();
    assert o == BLOCKED && IsCause(c);
    forall k | 0 <= k < |checks| && Contribution(checks, k) == BLOCKED
      ensures BlamesOnly(checks[k], c.id) && c.id != ""
    {
      PrependedContribution(c, checks, k);
      assert Contribution(all, k + 1).Rank() <= o'.Rank();
    }
  }

  lemma {:induction false} LegitimisedAt(c: CheckResult, checks: seq<CheckResult>, i: nat)
    requires i < |checks| && Legitimises(c, checks) && Contribution(checks, i).Rank() <= 2
    ensures Contribution([c] + checks, i + 1).Rank() <= 1
  {
    PrependedContribution(c, checks, i);
  }

  lemma {:induction false} LegitimisedAll(c: CheckResult, checks: seq<CheckResult>, k: nat)
    requires k <= |checks| && Legitimises(c, checks)
    requires forall i :: 0 <= i < |checks| ==> Contribution(checks, i).Rank() <= 2
    ensures Contribution([c] + checks, k).Rank() <= 1
  {
    if k == 0 {
      FrontContribution(c, checks);
    } else {
      LegitimisedAt(c, checks, k - 1);
    }
  }

  lemma {:induction false} LegitimateImproves(c: CheckResult, checks: seq<CheckResult>, o': Outcome)
    requires IsWorst(checks, BLOCKED) && IsWorst([c] + checks, o') && Legitimises(c, checks)
    ensures o'.Rank() <= 1
  {
    if o' != PASS {
      var k :| 0 <= k < |[c] + checks| && Contribution([c] + checks, k) == o';
      LegitimisedAll(c, checks, k);
    }
  }

  /** MAIN: putting a check in front improves the verdict exactly when it was blocked and the new check
      legitimises every skip that blocked it. */
  lemma {:induction false} PrependingImprovesIff(c: CheckResult, checks: seq<CheckResult>, o: Outcome, o': Outcome)
    requires IsWorst(checks, o) && IsWorst([c] + checks, o')
    ensures o'.Rank() < o.Rank() <==> o == BLOCKED && Legitimises(c, checks)
  {
    if o'.Rank() < o.Rank() {
      ImprovedIsLegitimate(c, checks, o, o');
    }
    if o == BLOCKED && Legitimises(c, checks) {
      LegitimateImproves(c, checks, o');
    }
  }

  /** And there is such a check for every report that one invalid cascade blocks. */
  lemma {:induction false} PrependingCanImprove(r: CheckResult, c: CheckResult)
    requires BlamesOnly(r, c.id) && c.id != "" && WaivedFailure(c)
    ensures IsWorst([r], BLOCKED) && IsWorst([c] + [r], CONDITIONAL_PASS)
  {
    assert !ValidCascade([r], 0) && Contribution([r], 0) == BLOCKED;
    PrependedContribution(c, [r], 0);
    assert ([c] + [r])[0] == c && ([c] + [r])[1] == r;
    assert Contribution([c] + [r], 0) == CONDITIONAL_PASS;
  }

  // ---------------------------------------------------------------- the runner

  datatype Body = Command(expectFailure: bool) | Function | NoBody

  datatype CheckSpec = CheckSpec(
    id: string, category: Category, severity: Severity, required: bool,
    pure: bool, alwaysRun: bool, body: Body)

  /** What the outside world does when a check is executed: a command's exit, or what a check
      function returns, or an exception. */
  datatype Behaviour = Behaviour(
    threw: bool, code: Option<int>, timedOut: bool, status: Status, skipReason: Option<SkipReason>)

  function Result(spec: CheckSpec, status: Status, skipReason: Option<SkipReason>, causedBy: Option<string>)
    : CheckResult
  {
    CheckResult(spec.id, spec.category, spec.severity, spec.required, status, skipReason, causedBy)
  }

  function Execute(spec: CheckSpec, b: Behaviour): CheckResult {
    match spec.body
    case NoBody => Result(spec, Failed, None, None)
    case Command(expectFailure) =>
      var ok := if expectFailure then b.code.Some? && b.code.value != 0 && !b.timedOut else b.code == Some(0);
      Result(spec, if !b.threw && !b.timedOut && ok then Passed else Failed, None, None)
    case Function =>
      if b.threw then Result(spec, Failed, None, None)
      else
        Result(spec, b.status,
               if b.status != Skipped then None
               else if b.skipReason.Some? then b.skipReason else Some(NotApplicable), None)
  }

  predicate Exempt(spec: CheckSpec) {
    spec.pure || spec.alwaysRun
  }

  /** The latest cause so far: the source's `cascadeFrom`. */
  function LatestCause(results: seq<CheckResult>): Option<string> {
    if results == [] then None
    else if IsCause(results[|results| - 1]) then Some(results[|results| - 1].id)
    else LatestCause(results[..|results| - 1])
  }

  lemma {:induction false} LatestCauseIsACause(results: seq<CheckResult>)
    ensures LatestCause(results).None? <==> forall i :: 0 <= i < |results| ==> !IsCause(results[i])
    ensures LatestCause(results).Some? ==>
              exists i :: 0 <= i < |results| && IsCause(results[i]) && results[i].id == LatestCause(results).value
  {
    if results != [] {
      LatestCauseIsACause(results[..|results| - 1]);
    }
  }

  /** The report of a whole run in which check i, if executed, behaves as `world(i)`. */
  function Report(specs: seq<CheckSpec>, world: nat -> Behaviour): (results: seq<CheckResult>)
    ensures |results| == |specs|
  {
    if specs == [] then []
    else
      var n := |specs| - 1;
      var before := Report(specs[..n], world);
      var cause := LatestCause(before);
      before + [if cause.Some? && !Exempt(specs[n]) then Result(specs[n], Skipped, Some(Cascade), cause)
                else Execute(specs[n], world(n))]
  }

  /** Check i runs: it never cascades, or no earlier required check failed or blocked. */
  predicate Runs(specs: seq<CheckSpec>, results: seq<CheckResult>, i: nat)
    requires i < |specs| && i <= |results|
  {
    Exempt(specs[i]) || forall j :: 0 <= j < i ==> !IsCause(results[j])
  }

  /** `ran` lists exactly the checks before position n that run. */
  ghost predicate RanExactly(ran: seq<nat>, specs: seq<CheckSpec>, results: seq<CheckResult>, n: nat)
    requires n <= |specs| && n <= |results|
  {
    forall i: nat :: i in ran <==> i < n && Runs(specs, results, i)
  }

  /** One iteration of the loop. */
  lemma {:induction false} GateStep(specs: seq<CheckSpec>, world: nat -> Behaviour, n: nat,
                                    results: seq<CheckResult>, ran: seq<nat>)
    requires n < |specs| && results == Report(specs[..n], world) && RanExactly(ran, specs, results, n)
    ensures var cause := LatestCause(results);
            var skipped := cause.Some? && !Exempt(specs[n]);
            var r := if skipped then Result(specs[n], Skipped, Some(Cascade), cause) else Execute(specs[n], world(n));
            && results + [r] == Report(specs[..n + 1], world)
            && LatestCause(results + [r]) == (if IsCause(r) then Some(r.id) else cause)
            && RanExactly(if skipped then ran else ran + [n], specs, results + [r], n + 1)
  {
    ReportStep(specs, world, n);
    var after := Report(specs[..n + 1], world);
    assert after[..n + 1] == after && after[..n] == results;
    LatestCauseStep(after, n + 1);
    LatestCauseIsACause(results);
    RunsLooksBack(specs, results, after, n);
  }

  /** What the result of an executed check says: a command passed exactly if it returned in time with exit
      code 0, or with another one if it is expected to fail; a function reports its own status, with a reason
      exactly for a skip; and a check that throws, or has no body, failed. */
  ghost predicate Executed(spec: CheckSpec, b: Behaviour, r: CheckResult) {
    && r.id == spec.id && r.category == spec.category && r.severity == spec.severity && r.required == spec.required
    && r.causedBy == None
    && (spec.body.Command? ==>
          && r.skipReason == None && (r.status == Passed || r.status == Failed)
          && (r.status == Passed <==>
              !b.threw && !b.timedOut && b.code.Some? && (b.code.value != 0 <==> spec.body.expectFailure)))
    && (spec.body.Function? ==>
          && r.status == (if b.threw then Failed else b.status)
          && (r.skipReason.Some? <==> r.status == Skipped)
          && (r.status == Skipped ==>
                r.skipReason == Some(if b.skipReason.Some? then b.skipReason.value else NotApplicable)))
    && (spec.body.NoBody? ==> r.status == Failed && r.skipReason == None)
  }

  lemma {:induction false} ExecuteIsExecuted(spec: CheckSpec, b: Behaviour)
    ensures Executed(spec, b, Execute(spec, b))
  {}

  /** The check was skipped because of the latest earlier required check that failed or blocked. */
  ghost predicate SkippedFor(spec: CheckSpec, results: seq<CheckResult>, i: nat)
    requires i < |results|
  {
    var r := results[i];
    && r.id == spec.id && r.category == spec.category && r.severity == spec.severity && r.required == spec.required
    && r.status == Skipped && r.skipReason == Some(Cascade)
    && exists j ::
         && 0 <= j < i && results[j].required && results[j].status in {Failed, Blocked}
         && r.causedBy == Some(results[j].id)
         && forall k :: j < k < i ==> !(results[k].required && results[k].status in {Failed, Blocked})
  }

  /** A check is executed exactly if it is pure, always runs, or follows no required failed or blocked check. */
  ghost predicate MustRun(spec: CheckSpec, results: seq<CheckResult>, i: nat)
    requires i <= |results|
  {
    spec.pure || spec.alwaysRun
    || forall j :: 0 <= j < i ==> !(results[j].required && results[j].status in {Failed, Blocked})
  }

  lemma {:induction false} LatestCauseAt(results: seq<CheckResult>) returns (j: nat)
    requires LatestCause(results).Some?
    ensures j < |results| && IsCause(results[j]) && LatestCause(results) == Some(results[j].id)
    ensures forall k :: j < k < |results| ==> !IsCause(results[k])
  {
    j := |results| - 1;
    if !IsCause(results[j]) {
      j := LatestCauseAt(results[..j]);
    }
  }

  /** MAIN: the report, check by check, in terms of the checks and what the world did. */
  lemma {:induction false} ReportMeans(specs: seq<CheckSpec>, world: nat -> Behaviour, i: nat)
    requires i < |specs|
    ensures var results := Report(specs, world);
            if MustRun(specs[i], results, i) then Executed(specs[i], world(i), results[i])
            else SkippedFor(specs[i], results, i)
  {
    var results := Report(specs, world);
    ReportAt(specs, world, i);
    LatestCauseIsACause(results[..i]);
    ExecuteIsExecuted(specs[i], world(i));
    if LatestCause(results[..i]).Some? {
      var j := LatestCauseAt(results[..i]);
      assert results[..i][j] == results[j];
      assert forall k :: j < k < i ==> results[..i][k] == results[k];
    } else {
      assert forall k :: 0 <= k < i ==> results[..i][k] == results[k];
    }
  }

  /** The body of the loop: skip or execute, and remember a new cause. */
  method RunCheck(spec: CheckSpec, b: Behaviour, cascadeFrom: Option<string>)
    returns (result: CheckResult, executed: bool, cascadeFrom': Option<string>)
    ensures executed <==> cascadeFrom.None? || spec.pure || spec.alwaysRun
    ensures executed ==> Executed(spec, b, result)
    ensures cascadeFrom' == if spec.required && result.status in {Failed, Blocked} then Some(spec.id) else cascadeFrom
    ensures result == if executed then Execute(spec, b) else Result(spec, Skipped, Some(Cascade), cascadeFrom)
    ensures cascadeFrom' == if IsCause(result) then Some(result.id) else cascadeFrom
  {
    if cascadeFrom.Some? && !spec.pure && !spec.alwaysRun {
      return Result(spec, Skipped, Some(Cascade), cascadeFrom), false, cascadeFrom;
    }
    ExecuteIsExecuted(spec, b);
    result, executed, cascadeFrom' := Execute(spec, b), true, cascadeFrom;
    if spec.required && (result.status == Failed || result.status == Blocked) {
      cascadeFrom' := Some(spec.id);
    }
  }

  predicate InOrder(ran: seq<nat>) {
    forall i, j :: 0 <= i < j < |ran| ==> ran[i] < ran[j]
  }

  lemma {:induction false} InOrderStep(specs: seq<CheckSpec>, ran: seq<nat>, results: seq<CheckResult>, n: nat)
    requires n <= |specs| && n <= |results| && InOrder(ran) && RanExactly(ran, specs, results, n)
    ensures InOrder(ran + [n])
  {
    forall i | 0 <= i < |ran|
      ensures ran[i] < n
    {
      assert ran[i] in ran;
    }
  }

  lemma {:induction false} GateMeans(specs: seq<CheckSpec>, world: nat -> Behaviour, results: seq<CheckResult>,
                                     ran: seq<nat>)
    requires results == Report(specs, world) && RanExactly(ran, specs, results, |specs|)
    ensures forall i: nat :: i < |specs| ==>
              if MustRun(specs[i], results, i) then i in ran && Executed(specs[i], world(i), results[i])
              else i !in ran && SkippedFor(specs[i], results, i)
  {
    forall i: nat | i < |specs|
      ensures if MustRun(specs[i], results, i) then i in ran && Executed(specs[i], world(i), results[i])
              else i !in ran && SkippedFor(specs[i], results, i)
    {
      ReportMeans(specs, world, i);
      assert Runs(specs, results, i) <==> MustRun(specs[i], results, i);
    }
  }

  /** The source's loop. `ran` lists the checks that were executed, in order. */
  method RunGate(specs: seq<CheckSpec>, world: nat -> Behaviour)
    returns (results: seq<CheckResult>, ran: seq<nat>, outcome: Outcome)
    ensures results == Report(specs, world)
    ensures RanExactly(ran, specs, results, |specs|)
    ensures InOrder(ran)
    ensures forall i: nat :: i < |specs| ==>
              if MustRun(specs[i], results, i) then i in ran && Executed(specs[i], world(i), results[i])
              else i !in ran && SkippedFor(specs[i], results, i)
    ensures IsWorst(results, outcome)
  {
    results, ran := [], [];
    var cascadeFrom: Option<string> := None;
    for n := 0 to |specs|
      invariant results == Report(specs[..n], world)
      invariant cascadeFrom == LatestCause(results)
      invariant RanExactly(ran, specs, results, n)
      invariant InOrder(ran)
    {
      GateStep(specs, world, n, results, ran);
      ghost var before := results;
      var result, executed;
      result, executed, cascadeFrom := RunCheck(specs[n], world(n), cascadeFrom);
      results := results + [result];
      if executed {
        InOrderStep(specs, ran, before, n);
        ran := ran + [n];
      }
    }
    assert specs[..|specs|] == specs;
    outcome := ComputeOutcome(results);
    GateMeans(specs, world, results, ran);
  }

  lemma {:induction false} ReportStep(specs: seq<CheckSpec>, world: nat -> Behaviour, n: nat)
    requires n < |specs|
    ensures var before := Report(specs[..n], world);
            var cause := LatestCause(before);
            Report(specs[..n + 1], world) ==
            before + [if cause.Some? && !Exempt(specs[n]) then Result(specs[n], Skipped, Some(Cascade), cause)
                      else Execute(specs[n], world(n))]
  {
    assert specs[..n + 1][..n] == specs[..n];
  }

  lemma {:induction false} RunsLooksBack(specs: seq<CheckSpec>, before: seq<CheckResult>,
                                         results: seq<CheckResult>, n: nat)
    requires n < |specs| && |before| == n && n <= |results| && results[..n] == before
    ensures forall i: nat :: i <= n ==> Runs(specs, results, i) == Runs(specs, before, i)
  {
    assert forall i :: 0 <= i < n ==> results[i] == before[i];
  }

  /** A check that runs reports what its execution made of it, and any other a cascade skip. */
  lemma {:induction false} RunsExecutes(specs: seq<CheckSpec>, world: nat -> Behaviour, i: nat)
    requires i < |specs|
    ensures var results := Report(specs, world);
            if Runs(specs, results, i) then results[i] == Execute(specs[i], world(i))
            else results[i].status == Skipped && results[i].skipReason == Some(Cascade)
  {
    ReportAt(specs, world, i);
    LatestCauseIsACause(Report(specs, world)[..i]);
    RunsLooksBack(specs, Report(specs, world)[..i], Report(specs, world), i);
  }

  predicate UniqueIds(specs: seq<CheckSpec>) {
    forall i, j :: 0 <= i < j < |specs| ==> specs[i].id != specs[j].id
  }

  lemma {:induction false} ReportPrefix(specs: seq<CheckSpec>, world: nat -> Behaviour, n: nat)
    requires n <= |specs|
    ensures Report(specs[..n], world) == Report(specs, world)[..n]
  {
    if n < |specs| {
      ReportPrefix(specs[..|specs| - 1], world, n);
      assert specs[..|specs| - 1][..n] == specs[..n];
    } else {
      assert specs[..n] == specs;
    }
  }

  /** The result of check i, spelled out from the checks before it. */
  lemma {:induction false} ReportAt(specs: seq<CheckSpec>, world: nat -> Behaviour, i: nat)
    requires i < |specs|
    ensures var results := Report(specs, world);
            var cause := LatestCause(results[..i]);
            results[i] == if cause.Some? && !Exempt(specs[i]) then Result(specs[i], Skipped, Some(Cascade), cause)
                          else Execute(specs[i], world(i))
  {
    ReportPrefix(specs, world, i + 1);
    ReportPrefix(specs, world, i);
    assert specs[..i + 1][..i] == specs[..i];
  }

  /** MAIN: with unique ids, every cascade skip the runner emits is judged valid by the verdict,
      exactly when the check it blames does not have the empty id. */
  lemma {:induction false} EmittedCascadesAreValid(specs: seq<CheckSpec>, world: nat -> Behaviour, i: nat)
    requires UniqueIds(specs) && i < |specs| && !Exempt(specs[i])
    requires LatestCause(Report(specs, world)[..i]).Some?
    ensures var results := Report(specs, world);
            && results[i].status == Skipped
            && (ValidCascade(results, i) <==> results[i].causedBy != Some(""))
  {
    var results := Report(specs, world);
    ReportAt(specs, world, i);
    var id := LatestCause(results[..i]).value;
    LatestCauseIsACause(results[..i]);
    var j :| 0 <= j < i && IsCause(results[..i][j]) && results[..i][j].id == id;
    forall k | 0 <= k <= j
      ensures results[k].id == specs[k].id
    {
      ReportKeepsSpec(specs, world, k);
    }
    assert FirstWithId(results, j, id);
  }

  /** In every world, every cascade skip that the runner emits is judged valid by the verdict. */
  ghost predicate CascadesAreSound(specs: seq<CheckSpec>) {
    forall world, i :: 0 <= i < |specs| && !Exempt(specs[i]) && LatestCause(Report(specs, world)[..i]).Some? ==>
      ValidCascade(Report(specs, world), i)
  }

  /** A blame of check j resolves to check j. */
  predicate Blamable(specs: seq<CheckSpec>, j: nat)
    requires j < |specs|
  {
    specs[j].id != "" && forall k :: 0 <= k < j ==> specs[k].id != specs[j].id
  }

  predicate HaveBodies(specs: seq<CheckSpec>) {
    forall s :: s in specs ==> s.body != NoBody
  }

  /** MAIN: cascade provenance is sound in every world exactly when each required check that a
      non-exempt one follows has a non-empty id that no earlier check bears. */
  lemma {:induction false} CascadesAreSoundIff(specs: seq<CheckSpec>)
    requires HaveBodies(specs)
    ensures CascadesAreSound(specs) <==>
            forall j, i :: 0 <= j < i < |specs| && specs[j].required && !Exempt(specs[i]) ==> Blamable(specs, j)
  {
    if CascadesAreSound(specs) {
      forall j, i | 0 <= j < i < |specs| && specs[j].required && !Exempt(specs[i])
        ensures Blamable(specs, j)
      {
        var world := AllPassBut(specs, j);
        OneFailure(specs, j, i);
        BlameResolves(specs, j, i, Report(specs, world));
      }
    }
    if forall j, i :: 0 <= j < i < |specs| && specs[j].required && !Exempt(specs[i]) ==> Blamable(specs, j) {
      forall world, i | 0 <= i < |specs| && !Exempt(specs[i]) && LatestCause(Report(specs, world)[..i]).Some?
        ensures ValidCascade(Report(specs, world), i)
      {
        BlamedIsFirst(specs, world, i);
      }
    }
  }

  /** After one failure at j, a valid cascade at i needs the id of j to resolve to j. */
  lemma {:induction false} BlameResolves(specs: seq<CheckSpec>, j: nat, i: nat, results: seq<CheckResult>)
    requires j < i < |specs| == |results| && OneFailureUpTo(specs, j, results, i)
    requires ValidCascade(results, i) && results[i].causedBy == Some(specs[j].id)
    ensures Blamable(specs, j)
  {
    var c :| 0 <= c < i && FirstWithId(results, c, specs[j].id) && IsCause(results[c]);
    assert OneFailureAt(specs, j, c, results[c]);
    assert c == j;
    forall k | 0 <= k < j
      ensures specs[k].id != specs[j].id
    {
      assert OneFailureAt(specs, j, k, results[k]);
    }
  }

  lemma {:induction false} BlamedIsFirst(specs: seq<CheckSpec>, world: nat -> Behaviour, i: nat)
    requires i < |specs| && !Exempt(specs[i]) && LatestCause(Report(specs, world)[..i]).Some?
    requires forall j :: 0 <= j < i && specs[j].required ==> Blamable(specs, j)
    ensures ValidCascade(Report(specs, world), i)
  {
    var results := Report(specs, world);
    ReportAt(specs, world, i);
    LatestCauseIsACause(results[..i]);
    var j :| 0 <= j < i && IsCause(results[..i][j]) && results[..i][j].id == LatestCause(results[..i]).value;
    forall k | 0 <= k <= j
      ensures results[k].id == specs[k].id && results[k].required == specs[k].required
    {
      ReportKeepsSpec(specs, world, k);
    }
    assert FirstWithId(results, j, results[j].id);
  }

  // ---------------------------------------------------------------- no vacuous pass

  /** Every required check ran and ended passed or degraded. */
  predicate AllRequiredHeld(results: seq<CheckResult>) {
    forall i :: 0 <= i < |results| && results[i].required ==> results[i].status in {Passed, Degraded}
  }

  /** A required check whose failure the verdict waves through. */
  predicate Waived(severity: Severity, category: Category, required: bool) {
    required && severity == P3 && !Protected(category)
  }

  /** A passing verdict is vacuous exactly when a required, unprotected P3 check failed. */
  lemma {:induction false} PassingVerdict(results: seq<CheckResult>, o: Outcome)
    requires IsWorst(results, o) && o.Rank() <= 1
    ensures AllRequiredHeld(results) <==>
            forall c :: c in results && Waived(c.severity, c.category, c.required) ==> c.status != Failed
  {
    if forall c :: c in results && Waived(c.severity, c.category, c.required) ==> c.status != Failed {
      forall i | 0 <= i < |results|
        ensures !IsCause(results[i])
      {
        assert Contribution(results, i).Rank() <= 1;
        assert results[i] in results;
      }
      forall i | 0 <= i < |results| && results[i].required
        ensures results[i].status in {Passed, Degraded}
      {
        assert Contribution(results, i).Rank() <= 1;
      }
    }
  }

  predicate WellFormed(specs: seq<CheckSpec>) {
    UniqueIds(specs) && HaveBodies(specs) && forall s :: s in specs ==> s.id != ""
  }

  /** The world in which every check passes except check i, which throws. */
  function AllPassBut(specs: seq<CheckSpec>, i: nat): nat -> Behaviour {
    (k: nat) =>
      Behaviour(k == i,
                Some(if k < |specs| && specs[k].body.Command? && specs[k].body.expectFailure then 1 else 0),
                false, Passed, None)
  }

  /** In that world: passes before i, the failure at i, and after it passes or skips that blame i. */
  predicate OneFailureAt(specs: seq<CheckSpec>, i: nat, k: nat, r: CheckResult)
    requires i < |specs| && k < |specs|
  {
    if k < i then r == Result(specs[k], Passed, None, None)
    else if k == i then r == Result(specs[k], Failed, None, None)
    else r == Result(specs[k], Passed, None, None) || r == Result(specs[k], Skipped, Some(Cascade), Some(specs[i].id))
  }

  ghost predicate OneFailureUpTo(specs: seq<CheckSpec>, i: nat, results: seq<CheckResult>, n: nat)
    requires i < |specs| && n <= |specs| == |results|
  {
    && (forall k :: 0 <= k < n ==> OneFailureAt(specs, i, k, results[k]))
    && LatestCause(results[..n]) == if i < n then Some(specs[i].id) else None
  }

  /** The runner's result for check n in the world in which only check i fails. */
  ghost predicate RunsOn(specs: seq<CheckSpec>, i: nat, results: seq<CheckResult>, n: nat)
    requires n < |specs| == |results|
  {
    var cause := LatestCause(results[..n]);
    results[n] == if cause.Some? && !Exempt(specs[n]) then Result(specs[n], Skipped, Some(Cascade), cause)
                  else Result(specs[n], if n == i then Failed else Passed, None, None)
  }

  lemma {:induction false} OneFailureStep(specs: seq<CheckSpec>, i: nat, results: seq<CheckResult>, n: nat)
    requires i < |specs| && specs[i].required && n < |specs| == |results|
    requires OneFailureUpTo(specs, i, results, n) && RunsOn(specs, i, results, n)
    ensures OneFailureUpTo(specs, i, results, n + 1)
  {
    LatestCauseStep(results, n + 1);
  }

  lemma {:induction false} OneFailureSteps(specs: seq<CheckSpec>, i: nat, results: seq<CheckResult>, n: nat)
    requires i < |specs| && specs[i].required && n <= |specs| == |results|
    requires forall k :: 0 <= k < |specs| ==> RunsOn(specs, i, results, k)
    ensures OneFailureUpTo(specs, i, results, n)
  {
    if n > 0 {
      OneFailureSteps(specs, i, results, n - 1);
      OneFailureStep(specs, i, results, n - 1);
    }
  }

  lemma {:induction false} OneFailure(specs: seq<CheckSpec>, i: nat, n: nat)
    requires HaveBodies(specs) && i < |specs| && specs[i].required && n <= |specs|
    ensures OneFailureUpTo(specs, i, Report(specs, AllPassBut(specs, i)), n)
  {
    var results := Report(specs, AllPassBut(specs, i));
    forall k | 0 <= k < |specs|
      ensures RunsOn(specs, i, results, k)
    {
      ReportAt(specs, AllPassBut(specs, i), k);
      ExecuteAllPassBut(specs, i, k);
    }
    OneFailureSteps(specs, i, results, n);
  }

  lemma {:induction false} LatestCauseStep(results: seq<CheckResult>, n: nat)
    requires 0 < n <= |results|
    ensures LatestCause(results[..n]) ==
            if IsCause(results[n - 1]) then Some(results[n - 1].id) else LatestCause(results[..n - 1])
  {
    assert results[..n][..n - 1] == results[..n - 1];
  }

  lemma {:induction false} ExecuteAllPassBut(specs: seq<CheckSpec>, i: nat, k: nat)
    requires HaveBodies(specs) && k < |specs|
    ensures Execute(specs[k], AllPassBut(specs, i)(k)) ==
            Result(specs[k], if k == i then Failed else Passed, None, None)
  {
    assert specs[k] in specs;
  }

  lemma {:induction false} OneFailureIsConditional(specs: seq<CheckSpec>, i: nat, results: seq<CheckResult>)
    requires WellFormed(specs) && i < |specs| && Waived(specs[i].severity, specs[i].category, specs[i].required)
    requires |results| == |specs| && forall k :: 0 <= k < |specs| ==> OneFailureAt(specs, i, k, results[k])
    ensures IsWorst(results, CONDITIONAL_PASS) && !AllRequiredHeld(results)
  {
    assert OneFailureAt(specs, i, i, results[i]);
    assert Contribution(results, i) == CONDITIONAL_PASS;
    forall k | 0 <= k < |specs|
      ensures Contribution(results, k).Rank() <= 1
    {
      assert OneFailureAt(specs, i, k, results[k]);
      if k > i {
        assert FirstWithId(results, i, specs[i].id) by {
          forall j | 0 <= j < i
            ensures results[j].id != specs[i].id
          {
            assert OneFailureAt(specs, i, j, results[j]);
          }
        }
        assert specs[i] in specs && IsCause(results[i]);
      }
    }
  }

  lemma {:induction false} PassMeansHeld(specs: seq<CheckSpec>, world: nat -> Behaviour, o: Outcome)
    requires forall s :: s in specs ==> !Waived(s.severity, s.category, s.required)
    requires IsWorst(Report(specs, world), o) && o.Rank() <= 1
    ensures AllRequiredHeld(Report(specs, world))
  {
    var results := Report(specs, world);
    forall c | c in results
      ensures !Waived(c.severity, c.category, c.required)
    {
      var k :| 0 <= k < |results| && results[k] == c;
      ReportKeepsSpec(specs, world, k);
      assert specs[k] in specs;
    }
    PassingVerdict(results, o);
  }

  lemma {:induction false} ReportKeepsSpec(specs: seq<CheckSpec>, world: nat -> Behaviour, k: nat)
    requires k < |specs|
    ensures var c := Report(specs, world)[k];
            && c.id == specs[k].id && c.severity == specs[k].severity
            && c.category == specs[k].category && c.required == specs[k].required
  {
    ReportAt(specs, world, k);
  }

  /** Exit 0 always means that every required check ran and held. */
  ghost predicate ExitZeroIsSound(specs: seq<CheckSpec>, mode: Mode) {
    forall world, o :: IsWorst(Report(specs, world), o) && ExitCodeFor(o, mode) == 0 ==>
      AllRequiredHeld(Report(specs, world))
  }

  /** MAIN: for a well-formed list of checks, exit 0 is sound exactly when no required check is an
      unprotected P3 one. */
  lemma {:induction false} NoVacuousPass(specs: seq<CheckSpec>, mode: Mode)
    requires WellFormed(specs)
    ensures ExitZeroIsSound(specs, mode) <==>
            forall s :: s in specs ==> !Waived(s.severity, s.category, s.required)
  {
    if s :| s in specs && Waived(s.severity, s.category, s.required) {
      var i :| 0 <= i < |specs| && specs[i] == s;
      OneFailure(specs, i, |specs|);
      OneFailureIsConditional(specs, i, Report(specs, AllPassBut(specs, i)));
      assert ExitCodeFor(CONDITIONAL_PASS, mode) == 0;
    } else {
      forall world, o | IsWorst(Report(specs, world), o) && ExitCodeFor(o, mode) == 0
        ensures AllRequiredHeld(Report(specs, world))
      {
        PassMeansHeld(specs, world, o);
      }
    }
  }
}
