/** The checkpoint state, its validity and its canonical arrangement
    (internal/checkpoint/checkpoint.go).  Units are filed under their identifier; the parts of a
    unit that no rule below inspects are carried as opaque text. */
module Checkpoint {
  import opened Wrappers
  import opened Ordering

  const SCHEMA_V1 := "assurance-checkpoint-v1"

  /** A baseline target: `anchor` is the package whose instrumentation the unit carries. */
  datatype TargetBody = TargetBody(inventoryId: string, executed: bool, skipped: bool,
                                   anchor: Option<string>, content: string)

  datatype SuiteBody = SuiteBody(measured: bool, covered: Option<string>, instrumented: Option<string>,
                                 durationNs: int, wholeTree: bool)

  /** A mutation result: `terminal` says that its evidence or findings settle the mutant. */
  datatype ResultBody = ResultBody(terminal: bool, content: string)

  datatype Baseline = Baseline(buildVetComplete: bool, complete: bool, evidence: string, findings: string,
                               targets: seq<Keyed<TargetBody>>, suites: seq<Keyed<SuiteBody>>,
                               routing: Option<string>)

  datatype Mutation = Mutation(fingerprint: string, complete: bool, probe: Option<string>,
                               results: seq<Keyed<ResultBody>>)

  datatype State = State(schema: string, inputDigest: string, attempts: int, baseline: Baseline,
                         race: Option<string>, mutation: Option<Mutation>)

  predicate ValidSha256(value: string)
  {
    |value| == 64 && forall i :: 0 <= i < |value| ==> '0' <= value[i] <= '9' || 'a' <= value[i] <= 'f'
  }

  predicate TargetOk(unit: Keyed<TargetBody>)
  {
    unit.id != "" && unit.value.inventoryId == unit.id && unit.value.executed != unit.value.skipped
  }

  predicate SuiteOk(suite: Keyed<SuiteBody>)
  {
    var body := suite.value;
    && suite.id != "" && body.durationNs >= 0
    && (body.measured ==> body.covered.Some? && body.instrumented.Some?)
    && (!body.measured ==> body.covered.None? && body.instrumented.None? && body.durationNs == 0 && !body.wholeTree)
  }

  predicate ResultOk(unit: Keyed<ResultBody>)
  {
    unit.id != "" && unit.value.terminal
  }

  /** At most one unit of a package carries the package's instrumentation. */
  ghost predicate OneAnchorPerPackage(targets: seq<Keyed<TargetBody>>)
  {
    forall i, j :: 0 <= i < j < |targets| && targets[i].value.anchor.Some? ==>
      targets[i].value.anchor != targets[j].value.anchor
  }

  ghost predicate TargetsValid(targets: seq<Keyed<TargetBody>>, complete: bool)
  {
    && (forall u :: u in targets ==> TargetOk(u) && (complete ==> u.value.anchor.None?))
    && DistinctIds(targets) && OneAnchorPerPackage(targets)
  }

  ghost predicate SuitesValid(suites: seq<Keyed<SuiteBody>>)
  {
    (forall u :: u in suites ==> SuiteOk(u)) && DistinctIds(suites)
  }

  ghost predicate ResultsValid(results: seq<Keyed<ResultBody>>)
  {
    (forall u :: u in results ==> ResultOk(u)) && DistinctIds(results)
  }

  ghost predicate Valid(state: State)
  {
    && state.schema == SCHEMA_V1 && ValidSha256(state.inputDigest) && state.attempts >= 1
    && TargetsValid(state.baseline.targets, state.baseline.complete)
    && SuitesValid(state.baseline.suites)
    && (state.baseline.complete ==> state.baseline.suites == [])
    && (state.baseline.complete <==> state.baseline.routing.Some?)
    && (state.mutation.Some? ==>
      ValidSha256(state.mutation.value.fingerprint) && ResultsValid(state.mutation.value.results))
  }

  method ValidateTargets(targets: seq<Keyed<TargetBody>>, complete: bool) returns (ok: bool)
    ensures ok <==> TargetsValid(targets, complete)
  {
    var seen: set<string> := {};
    var anchors: map<string, string> := map[];
    for i := 0 to |targets|
      invariant TargetsValid(targets[..i], complete)
      invariant seen == set j | 0 <= j < i :: targets[j].id
      invariant anchors.Keys == set j | 0 <= j < i && targets[j].value.anchor.Some? :: targets[j].value.anchor.value
    {
      var unit := targets[i];
      assert unit in targets;
      if !TargetOk(unit) || unit.id in seen {
        return false;
      }
      seen := seen + {unit.id};
      if unit.value.anchor.Some? {
        if complete || unit.value.anchor.value in anchors {
          return false;
        }
        anchors := anchors[unit.value.anchor.value := unit.id];
      }
    }
    assert targets[..|targets|] == targets;
    ok := true;
  }

  method ValidateSuites(suites: seq<Keyed<SuiteBody>>) returns (ok: bool)
    ensures ok <==> SuitesValid(suites)
  {
    var seen: set<string> := {};
    for i := 0 to |suites|
      invariant SuitesValid(suites[..i])
      invariant seen == set j | 0 <= j < i :: suites[j].id
    {
      var unit := suites[i];
      assert unit in suites;
      if !SuiteOk(unit) || unit.id in seen {
        return false;
      }
      seen := seen + {unit.id};
    }
    assert suites[..|suites|] == suites;
    ok := true;
  }

  method ValidateResults(results: seq<Keyed<ResultBody>>) returns (ok: bool)
    ensures ok <==> ResultsValid(results)
  {
    var seen: set<string> := {};
    for i := 0 to |results|
      invariant ResultsValid(results[..i])
      invariant seen == set j | 0 <= j < i :: results[j].id
    {
      var unit := results[i];
      assert unit in results;
      if !ResultOk(unit) || unit.id in seen {
        return false;
      }
      seen := seen + {unit.id};
    }
    assert results[..|results|] == results;
    ok := true;
  }

  method Validate(state: State) returns (ok: bool)
    ensures ok <==> Valid(state)
  {
    if state.schema != SCHEMA_V1 || !ValidSha256(state.inputDigest) || state.attempts < 1 {
      return false;
    }
    var targetsOk := ValidateTargets(state.baseline.targets, state.baseline.complete);
    if !targetsOk {
      return false;
    }
    var suitesOk := ValidateSuites(state.baseline.suites);
    if !suitesOk || (state.baseline.complete && state.baseline.suites != []) ||
       state.baseline.complete != state.baseline.routing.Some? {
      return false;
    }
    if state.mutation.Some? {
      if !ValidSha256(state.mutation.value.fingerprint) {
        return false;
      }
      ok := ValidateResults(state.mutation.value.results);
      return;
    }
    ok := true;
  }

  function CanonicalBaseline(b: Baseline): Baseline
  {
    b.(targets := Sort(b.targets, ById), suites := Sort(b.suites, ById))
  }

  function CanonicalMutation(m: Mutation): Mutation
  {
    m.(results := Sort(m.results, ById))
  }

  function Canonical(state: State): State
  {
    state.(
      baseline := CanonicalBaseline(state.baseline),
      mutation := if state.mutation.None? then None else Some(CanonicalMutation(state.mutation.value)))
  }

  lemma TargetsValidPermute(a: seq<Keyed<TargetBody>>, b: seq<Keyed<TargetBody>>, complete: bool)
    requires multiset(a) == multiset(b) && TargetsValid(a, complete)
    ensures TargetsValid(b, complete)
  {
    SameMembers(a, b);
    DistinctIdsPermute(a, b);
    forall i, j | 0 <= i < j < |b| && b[i].value.anchor.Some?
      ensures b[i].value.anchor != b[j].value.anchor
    {
      assert b[i] in a && b[j] in a;
      var x :| 0 <= x < |a| && a[x] == b[i];
      var y :| 0 <= y < |a| && a[y] == b[j];
      assert b[i].id != b[j].id;
    }
  }

  lemma SuitesValidPermute(a: seq<Keyed<SuiteBody>>, b: seq<Keyed<SuiteBody>>)
    requires multiset(a) == multiset(b) && SuitesValid(a)
    ensures SuitesValid(b)
  {
    SameMembers(a, b);
    DistinctIdsPermute(a, b);
  }

  lemma ResultsValidPermute(a: seq<Keyed<ResultBody>>, b: seq<Keyed<ResultBody>>)
    requires multiset(a) == multiset(b) && ResultsValid(a)
    ensures ResultsValid(b)
  {
    SameMembers(a, b);
    DistinctIdsPermute(a, b);
  }

  /** Canonicalisation keeps validity, and does nothing the second time. */
  lemma CanonicalValid(state: State)
    requires Valid(state)
    ensures Valid(Canonical(state))
    ensures Canonical(Canonical(state)) == Canonical(state)
  {
    var b := state.baseline;
    SortPermutes(b.targets, ById);
    SortPermutes(b.suites, ById);
    TargetsValidPermute(b.targets, Sort(b.targets, ById), b.complete);
    SuitesValidPermute(b.suites, Sort(b.suites, ById));
    SortIdempotent(b.targets);
    SortIdempotent(b.suites);
    if state.mutation.Some? {
      var r := state.mutation.value.results;
      SortPermutes(r, ById);
      ResultsValidPermute(r, Sort(r, ById));
      SortIdempotent(r);
    }
  }

  /** Two states hold the same units when one is a rearrangement of the other. */
  ghost predicate SameUnits(a: State, b: State)
  {
    && a.(baseline := b.baseline, mutation := b.mutation) == b
    && a.baseline.(targets := b.baseline.targets, suites := b.baseline.suites) == b.baseline
    && multiset(a.baseline.targets) == multiset(b.baseline.targets)
    && multiset(a.baseline.suites) == multiset(b.baseline.suites)
    && (a.mutation.Some? <==> b.mutation.Some?)
    && (a.mutation.Some? ==>
      && a.mutation.value.(results := b.mutation.value.results) == b.mutation.value
      && multiset(a.mutation.value.results) == multiset(b.mutation.value.results))
  }

  /** The canonical form is a function of the units alone: this is what "equal up to order" means. */
  lemma SameUnitsSameCanonical(a: State, b: State)
    requires Valid(a) && SameUnits(a, b)
    ensures Canonical(a) == Canonical(b) && Valid(b)
  {
    SortAgrees(a.baseline.targets, b.baseline.targets);
    SortAgrees(a.baseline.suites, b.baseline.suites);
    TargetsValidPermute(a.baseline.targets, b.baseline.targets, a.baseline.complete);
    SuitesValidPermute(a.baseline.suites, b.baseline.suites);
    if a.mutation.Some? {
      SortAgrees(a.mutation.value.results, b.mutation.value.results);
      ResultsValidPermute(a.mutation.value.results, b.mutation.value.results);
    }
    if b.baseline.complete {
      SameMembers(a.baseline.suites, b.baseline.suites);
    }
  }

  ghost predicate DistinctUnits(state: State)
  {
    && DistinctIds(state.baseline.targets) && DistinctIds(state.baseline.suites)
    && (state.mutation.Some? ==> DistinctIds(state.mutation.value.results))
  }

  /** Distinct identifiers alone make the canonical form a function of the units. */
  lemma DistinctUnitsSameCanonical(a: State, b: State)
    requires DistinctUnits(a) && SameUnits(a, b)
    ensures Canonical(a) == Canonical(b)
  {
    SortAgrees(a.baseline.targets, b.baseline.targets);
    SortAgrees(a.baseline.suites, b.baseline.suites);
    if a.mutation.Some? {
      SortAgrees(a.mutation.value.results, b.mutation.value.results);
    }
  }

  lemma SameUnitsSymmetric(a: State, b: State)
    requires SameUnits(a, b)
    ensures SameUnits(b, a)
  {
  }

  /** Validity does not depend on the order of units. */
  lemma ValidUpToOrder(a: State, b: State)
    requires SameUnits(a, b)
    ensures Valid(a) <==> Valid(b)
  {
    SameUnitsSymmetric(a, b);
    if Valid(a) {
      SameUnitsSameCanonical(a, b);
    } else if Valid(b) {
      SameUnitsSameCanonical(b, a);
    }
  }

  lemma CanonicalSameUnits(state: State)
    ensures SameUnits(Canonical(state), state)
  {
    SortPermutes(state.baseline.targets, ById);
    SortPermutes(state.baseline.suites, ById);
    if state.mutation.Some? {
      SortPermutes(state.mutation.value.results, ById);
    }
  }
}
