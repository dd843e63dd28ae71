/** Which targets have to run against a mutant (internal/assure/mutation.go): those that cover its
    position, less those a branch or infection proof rules out, plus those whose probe was infected. */
module Routing {
  import opened Wrappers
  import opened Ordering
  import opened Coverage

  datatype Target = Target(id: string, pkg: string, name: string, kind: string, coveredFiles: seq<string>,
                           covered: Option<seq<FileCoverage>>, environment: seq<string>, duration: int,
                           probeDuration: int, wholeTree: bool, probed: bool, infected: seq<int>)

  /** `branch` is the body that a narrowed condition guards, as a span. */
  datatype Mutant = Mutant(id: string, index: int, pkg: string, path: string, line: int, column: int, probed: bool,
                           branch: Option<Block>)

  datatype Reason = BranchNeverTaken | NeverInfected

  datatype Discharge = Discharge(target: string, reason: Reason)

  datatype Granularity = ByBlock | ByFile

  datatype Fallback = NoFallback | PositionUnknown | OutsideBlocks

  datatype Route = Route(reaching: seq<Target>, discharged: seq<Discharge>, probeReaching: seq<string>,
                         suiteCoverage: string, suiteReached: bool, suiteProbe: string, suiteInfected: bool,
                         suiteDuration: int, suiteWholeTree: bool, granularity: Granularity, fallback: Fallback,
                         fileCandidates: int)

  datatype Suite = Suite(covered: Option<seq<FileCoverage>>, instrumented: Option<seq<FileCoverage>>, duration: int,
                         wholeTree: bool)

  datatype SuiteProbe = SuiteProbe(measured: bool, infected: seq<int>, duration: int, wholeTree: bool)

  // ---- the infection list

  /** The binary search of a sorted list: the first place not below the value. */
  function SearchFrom(s: seq<int>, x: int, low: nat, high: nat): (i: nat)
    requires low <= high <= |s|
    ensures low <= i <= high
    decreases high - low
  {
    if low == high then low else
      var middle := (low + high) / 2;
      if s[middle] < x then SearchFrom(s, x, middle + 1, high) else SearchFrom(s, x, low, middle)
  }

  predicate FoundIn(s: seq<int>, x: int)
  {
    var i := SearchFrom(s, x, 0, |s|);
    i < |s| && s[i] == x
  }

  ghost predicate Ascending(s: seq<int>)
  {
    forall i, j :: 0 <= i < j < |s| ==> s[i] <= s[j]
  }

  lemma {:induction false} SearchIsExact(s: seq<int>, x: int, low: nat, high: nat)
    requires low <= high <= |s| && Ascending(s)
    requires (forall i :: 0 <= i < low ==> s[i] < x) && forall i :: high <= i < |s| ==> x <= s[i]
    ensures
      var i := SearchFrom(s, x, low, high);
      (forall j :: 0 <= j < i ==> s[j] < x) && forall j :: i <= j < |s| ==> x <= s[j]
    decreases high - low
  {
    if low < high {
      var middle := (low + high) / 2;
      if s[middle] < x {
        SearchIsExact(s, x, middle + 1, high);
      } else {
        SearchIsExact(s, x, low, middle);
      }
    }
  }

  lemma FoundIsMember(s: seq<int>, x: int)
    requires Ascending(s)
    ensures FoundIn(s, x) <==> x in s
  {
    SearchIsExact(s, x, 0, |s|);
  }

  /** A target that was not probed may always infect. */
  predicate Infects(t: Target, index: int)
  {
    !t.probed || FoundIn(t.infected, index)
  }

  // ---- filters

  /** The tests the router applies to a target, one by one. */
  datatype Test =
    | HasFile(path: string)
    | AtPosition(path: string, line: int, column: int)
    | TakesBranch(path: string, span: Block)
    | Infecting(index: int)
    | Measured
    | Unmeasured

  function PlanningDuration(t: Target): int
  {
    if t.probeDuration > 0 then t.probeDuration else t.duration
  }

  predicate Passes(test: Test, t: Target)
  {
    match test
    case HasFile(path) => path in t.coveredFiles
    case AtPosition(path, line, column) => t.covered.None? || Contains(Lookup(t.covered, path), line, column)
    case TakesBranch(path, span) => t.covered.None? || StartsWithin(Lookup(t.covered, path), span)
    case Infecting(index) => Infects(t, index)
    case Measured => PlanningDuration(t) > 0
    case Unmeasured => PlanningDuration(t) <= 0
  }

  function Filter(targets: seq<Target>, test: Test): seq<Target>
  {
    if targets == [] then []
    else Filter(targets[..|targets| - 1], test) +
         (if Passes(test, targets[|targets| - 1]) then [targets[|targets| - 1]] else [])
  }

  lemma {:induction false} FilterMembers(targets: seq<Target>, test: Test)
    ensures forall t :: t in Filter(targets, test) <==> t in targets && Passes(test, t)
  {
    if targets != [] {
      var front, last := targets[..|targets| - 1], targets[|targets| - 1];
      FilterMembers(front, test);
      assert targets == front + [last];
    }
  }

  lemma {:induction false} FilterAll(targets: seq<Target>, test: Test)
    requires forall t :: t in targets ==> Passes(test, t)
    ensures Filter(targets, test) == targets
  {
    if targets != [] {
      FilterAll(targets[..|targets| - 1], test);
      assert targets == targets[..|targets| - 1] + [targets[|targets| - 1]];
      assert targets[|targets| - 1] in targets;
    }
  }

  // ---- the order of execution

  predicate WitnessLe(m: Mutant, a: Target, b: Target)
  {
    if m.probed && a.probed != b.probed then a.probed
    else if m.probed && a.probed && |a.infected| != |b.infected| then |a.infected| < |b.infected|
    else PlanningDuration(a) <= PlanningDuration(b)
  }

  function WitnessOrder(m: Mutant): (Target, Target) -> bool
  {
    (a, b) => WitnessLe(m, a, b)
  }

  /** Measured targets in order, the likeliest and quickest witness first; then the others as given. */
  function OrderReaching(m: Mutant, targets: seq<Target>): seq<Target>
  {
    Sort(Filter(targets, Measured), WitnessOrder(m)) + Filter(targets, Unmeasured)
  }

  method OrderReachingTargets(m: Mutant, targets: seq<Target>) returns (ordered: seq<Target>)
    ensures ordered == OrderReaching(m, targets)
  {
    var measured: seq<Target>, unmeasured: seq<Target> := [], [];
    for i := 0 to |targets|
      invariant measured == Filter(targets[..i], Measured) && unmeasured == Filter(targets[..i], Unmeasured)
    {
      assert targets[..i + 1][..i] == targets[..i];
      if PlanningDuration(targets[i]) > 0 {
        measured := measured + [targets[i]];
      } else {
        unmeasured := unmeasured + [targets[i]];
      }
    }
    assert targets[..|targets|] == targets;
    ordered := Sort(measured, WitnessOrder(m)) + unmeasured;
  }

  lemma {:induction false} SplitByMeasure(targets: seq<Target>)
    ensures multiset(Filter(targets, Measured)) + multiset(Filter(targets, Unmeasured)) == multiset(targets)
  {
    if targets != [] {
      var front, last := targets[..|targets| - 1], targets[|targets| - 1];
      SplitByMeasure(front);
      assert targets == front + [last];
    }
  }

  lemma OrderPermutes(m: Mutant, targets: seq<Target>)
    ensures multiset(OrderReaching(m, targets)) == multiset(targets)
    ensures forall t :: t in OrderReaching(m, targets) <==> t in targets
  {
    SplitByMeasure(targets);
    SortPermutes(Filter(targets, Measured), WitnessOrder(m));
    SameMembers(OrderReaching(m, targets), targets);
  }

  lemma WitnessOrderIsTotal(m: Mutant)
    ensures TotalPreorder(WitnessOrder(m))
  {
  }

  /** No measured target runs after one that is a better witness: probed targets first when the mutant is
      probed, the fewest infections first among them, then the quickest by its probe, or by its baseline
      when it has no probe time.  Targets without any time come last. */
  lemma OrderIsByWitness(m: Mutant, targets: seq<Target>, i: nat, j: nat)
    requires i < j < |OrderReaching(m, targets)|
    ensures
      var time := (t: Target) => if t.probeDuration > 0 then t.probeDuration else t.duration;
      var a, b := OrderReaching(m, targets)[i], OrderReaching(m, targets)[j];
      && (time(b) > 0 ==> time(a) > 0)
      && (time(b) > 0 && m.probed && b.probed ==> a.probed)
      && (time(b) > 0 && m.probed && a.probed && b.probed ==> |a.infected| <= |b.infected|)
      && (time(b) > 0 && (!m.probed || !a.probed || (b.probed && |a.infected| == |b.infected|)) ==> time(a) <= time(b))
  {
    var measured, rest := Sort(Filter(targets, Measured), WitnessOrder(m)), Filter(targets, Unmeasured);
    WitnessOrderIsTotal(m);
    SortSorted(Filter(targets, Measured), WitnessOrder(m));
    SortMembers(Filter(targets, Measured), WitnessOrder(m));
    FilterMembers(targets, Measured);
    FilterMembers(targets, Unmeasured);
    var o := OrderReaching(m, targets);
    if j >= |measured| {
      assert o[j] == rest[j - |measured|] && rest[j - |measured|] in rest;
      assert Passes(Unmeasured, o[j]);
    } else {
      assert o[i] == measured[i] && measured[i] in measured && o[j] == measured[j];
      assert Passes(Measured, o[i]);
      assert WitnessOrder(m)(measured[i], measured[j]);
    }
  }

  /** Equal witnesses, and targets without a time, keep the order they are given in. */
  lemma OrderIsStable(m: Mutant, targets: seq<Target>, x: Target)
    ensures
      var measured, rest := Filter(targets, Measured), Filter(targets, Unmeasured);
      && |OrderReaching(m, targets)| == |measured| + |rest|
      && OrderReaching(m, targets)[|measured|..] == rest
      && Peers(OrderReaching(m, targets)[..|measured|], WitnessOrder(m), x) == Peers(measured, WitnessOrder(m), x)
  {
    var measured := Filter(targets, Measured);
    WitnessOrderIsTotal(m);
    SortIsStable(measured, WitnessOrder(m), x);
    SortPermutes(measured, WitnessOrder(m));
    assert |multiset(Sort(measured, WitnessOrder(m)))| == |multiset(measured)|;
    assert OrderReaching(m, targets)[..|measured|] == Sort(measured, WitnessOrder(m));
  }

  // ---- discharges

  /** The body a narrowed condition guards, when the proof is well formed and the mutant lies before it. */
  function NarrowedSpan(m: Mutant): Option<Block>
  {
    if m.branch.None? then None else
      var span := m.branch.value;
      if span.startLine < 1 || span.startColumn < 1 || span.endLine < 1 || span.endColumn < 1 then None
      else if Before(span.endLine, span.endColumn, span.startLine, span.startColumn) then None
      else if !Before(m.line, m.column, span.startLine, span.startColumn) then None
      else Some(span)
  }

  /** The targets that fail the test, with the reason. */
  function Dropped(targets: seq<Target>, test: Test, reason: Reason): seq<Discharge>
  {
    if targets == [] then []
    else Dropped(targets[..|targets| - 1], test, reason) +
         (if Passes(test, targets[|targets| - 1]) then [] else [Discharge(targets[|targets| - 1].id, reason)])
  }

  function BranchTest(m: Mutant, instrumented: FileCoverage): Option<Test>
  {
    var span := NarrowedSpan(m);
    if span.Some? && StartsWithin(instrumented, span.value) then Some(TakesBranch(m.path, span.value)) else None
  }

  function InfectionTest(m: Mutant): Option<Test>
  {
    if m.probed then Some(Infecting(m.index)) else None
  }

  function Split(targets: seq<Target>, test: Option<Test>, reason: Reason): (seq<Target>, seq<Discharge>)
  {
    if test.None? then (targets, []) else (Filter(targets, test.value), Dropped(targets, test.value, reason))
  }

  method SplitTargets(targets: seq<Target>, test: Option<Test>, reason: Reason)
    returns (kept: seq<Target>, discharged: seq<Discharge>)
    ensures (kept, discharged) == Split(targets, test, reason)
  {
    if test.None? {
      return targets, [];
    }
    kept, discharged := [], [];
    for i := 0 to |targets|
      invariant kept == Filter(targets[..i], test.value) && discharged == Dropped(targets[..i], test.value, reason)
    {
      assert targets[..i + 1][..i] == targets[..i];
      if Passes(test.value, targets[i]) {
        kept := kept + [targets[i]];
        continue;
      }
      discharged := discharged + [Discharge(targets[i].id, reason)];
    }
    assert targets[..|targets|] == targets;
    if discharged == [] {
      NoneDropped(targets, test.value, reason);
      return targets, [];
    }
  }

  lemma {:induction false} NoneDropped(targets: seq<Target>, test: Test, reason: Reason)
    requires Dropped(targets, test, reason) == []
    ensures Filter(targets, test) == targets
  {
    if targets != [] {
      NoneDropped(targets[..|targets| - 1], test, reason);
      assert targets == targets[..|targets| - 1] + [targets[|targets| - 1]];
    }
  }

  function Proofs(list: seq<Discharge>): map<string, Reason>
  {
    if list == [] then map[] else Proofs(list[..|list| - 1])[list[|list| - 1].target := list[|list| - 1].reason]
  }

  /** The targets with a proof, in order. */
  function Proved(targets: seq<Target>, proofs: map<string, Reason>): seq<Discharge>
  {
    if targets == [] then [] else
      var last := targets[|targets| - 1];
      Proved(targets[..|targets| - 1], proofs) + (if last.id in proofs then [Discharge(last.id, proofs[last.id])] else [])
  }

  function DischargeReaching(m: Mutant, ordered: seq<Target>, instrumented: FileCoverage): (seq<Target>, seq<Discharge>)
  {
    var (unbranched, branch) := Split(ordered, BranchTest(m, instrumented), BranchNeverTaken);
    var (kept, infection) := Split(unbranched, InfectionTest(m), NeverInfected);
    if branch == [] && infection == [] then (ordered, []) else (kept, Proved(ordered, Proofs(branch + infection)))
  }

  method DischargeReachingTargets(m: Mutant, ordered: seq<Target>, instrumented: FileCoverage)
    returns (kept: seq<Target>, discharged: seq<Discharge>)
    ensures (kept, discharged) == DischargeReaching(m, ordered, instrumented)
  {
    hide BranchTest, InfectionTest, Split;
    var unbranched, branch := SplitTargets(ordered, BranchTest(m, instrumented), BranchNeverTaken);
    var infection;
    kept, infection := SplitTargets(unbranched, InfectionTest(m), NeverInfected);
    if branch == [] && infection == [] {
      return ordered, [];
    }
    var proofs: map<string, Reason> := map[];
    var all := branch + infection;
    for i := 0 to |all|
      invariant proofs == Proofs(all[..i])
    {
      assert all[..i + 1][..i] == all[..i];
      proofs := proofs[all[i].target := all[i].reason];
    }
    assert all[..|all|] == all;
    discharged := [];
    for i := 0 to |ordered|
      invariant discharged == Proved(ordered[..i], proofs)
    {
      assert ordered[..i + 1][..i] == ordered[..i];
      if ordered[i].id in proofs {
        discharged := discharged + [Discharge(ordered[i].id, proofs[ordered[i].id])];
      }
    }
    assert ordered[..|ordered|] == ordered;
  }

  // ---- the route of a mutant

  function Plain(reaching: seq<Target>, discharged: seq<Discharge>, granularity: Granularity, fallback: Fallback, candidates: int): Route
  {
    Route(reaching, discharged, [], "", false, "", false, 0, false, granularity, fallback, candidates)
  }

  /** The block reaching targets, before any discharge. */
  function BlockReaching(m: Mutant, targets: seq<Target>): seq<Target>
  {
    OrderReaching(m, Filter(Filter(targets, HasFile(m.path)), AtPosition(m.path, m.line, m.column)))
  }

  function RouteOf(m: Mutant, targets: seq<Target>, instrumented: seq<FileCoverage>): Route
  {
    var candidates := Filter(targets, HasFile(m.path));
    var blocks := Find(instrumented, m.path).0;
    if m.line <= 0 || m.column <= 0 then
      Plain(OrderReaching(m, candidates), [], ByFile, PositionUnknown, |candidates|)
    else if !Contains(blocks, m.line, m.column) then
      Plain(OrderReaching(m, candidates), [], ByFile, OutsideBlocks, |candidates|)
    else
      var (kept, discharged) := DischargeReaching(m, BlockReaching(m, targets), blocks);
      Plain(kept, discharged, ByBlock, NoFallback, |candidates|)
  }

  method Select(targets: seq<Target>, test: Test) returns (kept: seq<Target>)
    ensures kept == Filter(targets, test)
  {
    kept := [];
    for i := 0 to |targets|
      invariant kept == Filter(targets[..i], test)
    {
      assert targets[..i + 1][..i] == targets[..i];
      if Passes(test, targets[i]) {
        kept := kept + [targets[i]];
      }
    }
    assert targets[..|targets|] == targets;
  }

  /** The coverage of the targets, too, is looked up by binary search, hence in path order. */
  method RouteMutant(m: Mutant, targets: seq<Target>, instrumented: seq<FileCoverage>) returns (route: Route)
    requires InPathOrder(instrumented) && forall t :: t in targets ==> Searchable(t.covered)
    ensures route == RouteOf(m, targets, instrumented)
  {
    hide Filter, Contains, OrderReaching, DischargeReaching, Find;
    var candidates := Select(targets, HasFile(m.path));
    if m.line <= 0 || m.column <= 0 {
      var ordered := OrderReachingTargets(m, candidates);
      return Plain(ordered, [], ByFile, PositionUnknown, |candidates|);
    }
    var blocks, _ := FindFileCoverage(instrumented, m.path);
    if !Contains(blocks, m.line, m.column) {
      var ordered := OrderReachingTargets(m, candidates);
      return Plain(ordered, [], ByFile, OutsideBlocks, |candidates|);
    }
    var reaching := Select(candidates, AtPosition(m.path, m.line, m.column));
    var ordered := OrderReachingTargets(m, reaching);
    var kept, discharged := DischargeReachingTargets(m, ordered, blocks);
    route := Plain(kept, discharged, ByBlock, NoFallback, |candidates|);
  }

  // ---- package suites

  predicate Unrouted(r: Route)
  {
    r.reaching == [] && r.discharged == []
  }

  const SUITE_COVERAGE_PREFIX := "package-suite-coverage:"
  const SUITE_PROBE_PREFIX := "package-suite:"

  function SuiteCoverageRouting(m: Mutant, r: Route, suites: map<string, Suite>): Route
  {
    if !Unrouted(r) || m.pkg !in suites then r else
      var suite := suites[m.pkg];
      var timed := r.(suiteDuration := suite.duration);
      if m.line <= 0 || m.column <= 0 || !Contains(Lookup(suite.instrumented, m.path), m.line, m.column) then timed
      else timed.(suiteCoverage := SUITE_COVERAGE_PREFIX + m.pkg, suiteWholeTree := suite.wholeTree,
                  suiteReached := Contains(Lookup(suite.covered, m.path), m.line, m.column))
  }

  // ---- probes

  function SuiteProbeRouting(m: Mutant, r: Route, probes: map<string, SuiteProbe>): Route
  {
    if !Unrouted(r) || !m.probed || m.pkg !in probes || !probes[m.pkg].measured then r else
      var suite := probes[m.pkg];
      r.(suiteProbe := SUITE_PROBE_PREFIX + m.pkg, suiteInfected := m.index in suite.infected,
         suiteDuration := if r.suiteDuration == 0 then suite.duration else r.suiteDuration,
         suiteWholeTree := suite.wholeTree)
  }

  /** An infected suite overrides its coverage, which says that the mutant is not reached. */
  function Contradicted(r: Route): Route
  {
    if r.suiteCoverage != "" && !r.suiteReached && r.suiteInfected then r.(suiteCoverage := "") else r
  }

  /** The suite itself has to run, so probes of targets add nothing. */
  predicate SuiteRuns(r: Route)
  {
    && Unrouted(r) && !(r.suiteCoverage != "" && !r.suiteReached)
    && ((r.suiteProbe == "" && r.suiteCoverage != "" && r.suiteReached) || r.suiteInfected)
  }

  predicate ProbeReaches(m: Mutant, t: Target)
  {
    m.probed && t.probed && Infects(t, m.index)
  }

  /** The targets, not known yet, that the mutant infected in their probe; one of each name. */
  function Added(m: Mutant, targets: seq<Target>, known: set<string>): seq<Target>
  {
    if targets == [] then []
    else if targets[0].id in known || !ProbeReaches(m, targets[0]) then Added(m, targets[1..], known)
    else [targets[0]] + Added(m, targets[1..], known + {targets[0].id})
  }

  function IdsOf(targets: seq<Target>): seq<string>
  {
    seq(|targets|, i requires 0 <= i < |targets| => targets[i].id)
  }

  function KnownIds(r: Route): set<string>
  {
    (set i | 0 <= i < |r.reaching| :: r.reaching[i].id) + (set i | 0 <= i < |r.discharged| :: r.discharged[i].target)
  }

  function ProbeRouting(m: Mutant, targets: seq<Target>, r: Route, probes: map<string, SuiteProbe>): Route
  {
    var s := Contradicted(SuiteProbeRouting(m, r, probes));
    if SuiteRuns(s) then s else
      var added := Added(m, targets, KnownIds(s));
      var t := s.(reaching := s.reaching + added, probeReaching := s.probeReaching + IdsOf(added));
      if t.probeReaching == [] then t else t.(reaching := OrderReaching(m, t.reaching))
  }

  method ApplySuiteProbe(m: Mutant, before: Route, probes: map<string, SuiteProbe>) returns (route: Route)
    ensures route == Contradicted(SuiteProbeRouting(m, before, probes))
  {
    route := before;
    if Unrouted(before) && m.probed && m.pkg in probes && probes[m.pkg].measured {
      var suite := probes[m.pkg];
      route := route.(suiteProbe := SUITE_PROBE_PREFIX + m.pkg, suiteInfected := m.index in suite.infected);
      if route.suiteDuration == 0 {
        route := route.(suiteDuration := suite.duration);
      }
      route := route.(suiteWholeTree := suite.wholeTree);
    }
    if route.suiteCoverage != "" && !route.suiteReached && route.suiteInfected {
      route := route.(suiteCoverage := "");
    }
  }

  method ApplyProbeRouting(m: Mutant, targets: seq<Target>, before: Route, probes: map<string, SuiteProbe>)
    returns (route: Route)
    ensures route == ProbeRouting(m, targets, before, probes)
  {
    hide OrderReaching, Infects, SuiteProbeRouting, Contradicted;
    route := ApplySuiteProbe(m, before, probes);
    if SuiteRuns(route) {
      return;
    }
    var known := KnownIds(route);
    var extra: seq<Target>, names: seq<string> := [], [];
    for i := 0 to |targets|
      invariant names == IdsOf(extra)
      invariant Added(m, targets, KnownIds(route)) == extra + Added(m, targets[i..], known)
    {
      var t := targets[i];
      assert targets[i..][0] == t && targets[i..][1..] == targets[i + 1..];
      if t.id in known || !m.probed || !t.probed || !Infects(t, m.index) {
        continue;
      }
      assert extra + ([t] + Added(m, targets[i + 1..], known + {t.id})) == (extra + [t]) + Added(m, targets[i + 1..], known + {t.id});
      extra := extra + [t];
      names := names + [t.id];
      known := known + {t.id};
    }
    assert targets[|targets|..] == [] && Added(m, [], known) == [];
    assert Added(m, targets, KnownIds(route)) == extra;
    route := route.(reaching := route.reaching + extra, probeReaching := route.probeReaching + names);
    if route.probeReaching != [] {
      var ordered := OrderReachingTargets(m, route.reaching);
      route := route.(reaching := ordered);
    }
  }

  method ApplySuiteCoverageRouting(m: Mutant, before: Route, suites: map<string, Suite>) returns (route: Route)
    requires m.pkg in suites ==> Searchable(suites[m.pkg].covered) && Searchable(suites[m.pkg].instrumented)
    ensures route == SuiteCoverageRouting(m, before, suites)
  {
    hide Find, Contains, InPathOrder;
    route := before;
    if before.reaching != [] || before.discharged != [] || m.pkg !in suites {
      return;
    }
    var suite := suites[m.pkg];
    route := route.(suiteDuration := suite.duration);
    if m.line <= 0 || m.column <= 0 {
      return;
    }
    var instrumented := FindIn(suite.instrumented, m.path);
    if !Contains(instrumented, m.line, m.column) {
      return;
    }
    var covered := FindIn(suite.covered, m.path);
    route := route.(suiteCoverage := SUITE_COVERAGE_PREFIX + m.pkg);
    route := route.(suiteReached := Contains(covered, m.line, m.column));
    route := route.(suiteWholeTree := suite.wholeTree);
  }

  ghost predicate Searchable(covered: Option<seq<FileCoverage>>)
  {
    covered.Some? ==> InPathOrder(covered.value)
  }

  ghost predicate CanonicalOrNone(covered: Option<seq<FileCoverage>>)
  {
    covered.Some? ==> Canonical(covered.value)
  }

  method FindIn(covered: Option<seq<FileCoverage>>, path: string) returns (file: FileCoverage)
    requires Searchable(covered)
    ensures file == Lookup(covered, path)
  {
    if covered.None? {
      return FileCoverage("", []);
    }
    var found;
    file, found := FindFileCoverage(covered.value, path);
  }
}
