/** Routing on resumed evidence (internal/assure/baseline.go, internal/checkpoint/checkpoint.go): the
    checkpoint sorts the lists of a target, arranges its coverage and writes unmeasured coverage as
    empty.  A mutant takes the same route on what comes back, unless it lies on a block and a target
    without measured coverage has its file. */
module ResumedRoutes {
  import opened Wrappers
  import opened Ordering
  import opened Coverage
  import opened Routing
  import opened RoutingSoundness

  predicate IntLe(a: int, b: int)
  {
    a <= b
  }

  /** Remove neighbours that are equal. */
  function Thinned(s: seq<int>): seq<int>
  {
    if |s| < 2 then s
    else if s[0] == s[1] then Thinned(s[1..])
    else [s[0]] + Thinned(s[1..])
  }

  ghost predicate StrictlyAscending(s: seq<int>)
  {
    forall i, j :: 0 <= i < j < |s| ==> s[i] < s[j]
  }

  lemma {:induction false} ThinnedMembers(s: seq<int>)
    ensures forall x :: x in Thinned(s) ==> x in s
  {
    if |s| >= 2 {
      ThinnedMembers(s[1..]);
    }
  }

  lemma {:induction false} ThinnedAscends(s: seq<int>)
    requires Sorted(s, IntLe)
    ensures StrictlyAscending(Thinned(s))
  {
    if |s| >= 2 {
      var rest := Thinned(s[1..]);
      TailStays(s, IntLe);
      ThinnedAscends(s[1..]);
      ThinnedMembers(s[1..]);
      if s[0] != s[1] {
        forall i | 0 <= i < |rest| ensures s[0] < rest[i] {
          assert rest[i] in rest;
          var j :| 0 <= j < |s[1..]| && s[1..][j] == rest[i];
          assert IntLe(s[0], s[1]) && (j > 0 ==> IntLe(s[1], s[j + 1]));
        }
      }
    }
  }

  lemma {:induction false} ThinnedStays(s: seq<int>)
    requires StrictlyAscending(s)
    ensures Thinned(s) == s
  {
    if |s| >= 2 {
      ThinnedStays(s[1..]);
      assert s[0] < s[1] && s == [s[0]] + s[1..];
    }
  }

  /** What a resumed run reads back of a target: its lists sorted, its coverage canonical and measured. */
  ghost function Resumed(t: Target): Target
  {
    t.(covered := Some(Restored(t.covered)), coveredFiles := Sort(t.coveredFiles, TextLe),
       environment := Sort(t.environment, TextLe), infected := Thinned(Sort(t.infected, IntLe)))
  }

  ghost function ResumedAll(targets: seq<Target>): seq<Target>
  {
    seq(|targets|, i requires 0 <= i < |targets| => Resumed(targets[i]))
  }

  /** Measured evidence in the checkpoint's own order. */
  ghost predicate Settled(t: Target)
  {
    && t.covered.Some? && Canonical(t.covered.value) && Sorted(t.coveredFiles, TextLe) && Sorted(t.environment, TextLe)
    && StrictlyAscending(t.infected)
  }

  lemma SortedTextsStay(s: seq<string>)
    ensures Sort(s, TextLe) == s <==> Sorted(s, TextLe)
  {
    TextLeIsTotalPreorder();
    SortSorted(s, TextLe);
    SortPermutes(s, TextLe);
    TextsAntisymmetric(s);
    if Sorted(s, TextLe) {
      SortedUnique(s, Sort(s, TextLe), TextLe);
    }
  }

  lemma AscendingStays(s: seq<int>)
    ensures Thinned(Sort(s, IntLe)) == s <==> StrictlyAscending(s)
  {
    SortSorted(s, IntLe);
    SortPermutes(s, IntLe);
    ThinnedAscends(Sort(s, IntLe));
    if StrictlyAscending(s) {
      ThinnedStays(s);
      assert Sorted(s, IntLe);
      SortedUnique(s, Sort(s, IntLe), IntLe);
    }
  }

  lemma ResumesUnchanged(t: Target)
    ensures Resumed(t) == t <==> Settled(t)
  {
    CheckpointRoundTrip(t.covered);
    SortedTextsStay(t.coveredFiles);
    SortedTextsStay(t.environment);
    AscendingStays(t.infected);
  }

  /** Evidence in the shape that baselines and probes produce it: one file for each path, infections
      strictly ascending. */
  ghost predicate WellMeasured(t: Target)
  {
    (t.covered.Some? ==> OnePerPath(t.covered.value)) && StrictlyAscending(t.infected)
  }

  ghost predicate AllWell(targets: seq<Target>)
  {
    forall t :: t in targets ==> WellMeasured(t)
  }

  // ---- one target

  lemma ResumedBasics(t: Target)
    requires WellMeasured(t)
    ensures Resumed(t) == t.(covered := Resumed(t).covered, coveredFiles := Resumed(t).coveredFiles,
                             environment := Resumed(t).environment)
    ensures PlanningDuration(Resumed(t)) == PlanningDuration(t)
    ensures forall p :: p in Resumed(t).coveredFiles <==> p in t.coveredFiles
  {
    hide Restored, PlanningDuration, Thinned;
    AscendingStays(t.infected);
    SortMembers(t.coveredFiles, TextLe);
    assert Resumed(t).infected == t.infected;
    DurationOf(t, Resumed(t));
  }

  lemma DurationOf(a: Target, b: Target)
    requires a.probeDuration == b.probeDuration && a.duration == b.duration
    ensures PlanningDuration(a) == PlanningDuration(b)
  {
  }

  /** The tests of the router answer as before, but for position tests of an unmeasured target. */
  lemma ResumedPasses(t: Target, test: Test)
    requires WellMeasured(t)
    requires (test.AtPosition? || test.TakesBranch?) ==> t.covered.Some?
    ensures Passes(test, Resumed(t)) == Passes(test, t)
  {
    hide Restored, Contains, StartsWithin, Find, PlanningDuration, Thinned, FoundIn;
    ResumedBasics(t);
    match test
    case AtPosition(path, line, column) => RestoredAnswers(t.covered, path, line, column, Block(0, 0, 0, 0));
    case TakesBranch(path, span) => RestoredAnswers(t.covered, path, 0, 0, span);
    case _ =>
  }

  lemma UnmeasuredIsNowhere(t: Target, path: string, line: int, column: int)
    requires t.covered.None?
    ensures !Passes(AtPosition(path, line, column), Resumed(t))
  {
    CheckpointRoundTrip(None);
    MergeIsIdempotent([]);
    assert Restored(None) == [];
  }

  lemma ResumedWitness(m: Mutant, a: Target, b: Target)
    requires WellMeasured(a) && WellMeasured(b)
    ensures WitnessLe(m, Resumed(a), Resumed(b)) == WitnessLe(m, a, b)
  {
    hide Resumed, PlanningDuration;
    ResumedBasics(a);
    ResumedBasics(b);
  }

  // ---- lists of targets

  lemma ResumedAppend(a: seq<Target>, b: seq<Target>)
    ensures ResumedAll(a + b) == ResumedAll(a) + ResumedAll(b)
  {
    hide Resumed;
  }

  lemma ResumedMembers(targets: seq<Target>)
    ensures forall u :: u in ResumedAll(targets) <==> exists t :: t in targets && u == Resumed(t)
  {
    hide Resumed;
    forall u ensures u in ResumedAll(targets) <==> exists t :: t in targets && u == Resumed(t) {
      if u in ResumedAll(targets) {
        var i :| 0 <= i < |targets| && ResumedAll(targets)[i] == u;
        assert targets[i] in targets;
      }
      if t :| t in targets && u == Resumed(t) {
        var i :| 0 <= i < |targets| && targets[i] == t;
        assert ResumedAll(targets)[i] == u;
      }
    }
  }

  lemma {:induction false} FilterResumed(targets: seq<Target>, test: Test)
    requires forall t :: t in targets ==> Passes(test, Resumed(t)) == Passes(test, t)
    ensures Filter(ResumedAll(targets), test) == ResumedAll(Filter(targets, test))
  {
    hide Resumed, Passes;
    if targets != [] {
      var front, last := targets[..|targets| - 1], targets[|targets| - 1];
      assert targets == front + [last] && last in targets;
      FilterResumed(front, test);
      ResumedAppend(front, [last]);
      assert ResumedAll(targets) == ResumedAll(front) + [Resumed(last)];
      ResumedAppend(Filter(front, test), [last]);
    }
  }

  lemma {:induction false} DroppedResumed(targets: seq<Target>, test: Test, reason: Reason)
    requires forall t :: t in targets ==> Passes(test, Resumed(t)) == Passes(test, t)
    requires forall t :: t in targets ==> Resumed(t).id == t.id
    ensures Dropped(ResumedAll(targets), test, reason) == Dropped(targets, test, reason)
  {
    hide Resumed, Passes;
    if targets != [] {
      var front, last := targets[..|targets| - 1], targets[|targets| - 1];
      assert targets == front + [last] && last in targets;
      DroppedResumed(front, test, reason);
      ResumedAppend(front, [last]);
      assert ResumedAll(targets) == ResumedAll(front) + [Resumed(last)];
    }
  }

  lemma {:induction false} ProvedResumed(targets: seq<Target>, proofs: map<string, Reason>)
    requires forall t :: t in targets ==> Resumed(t).id == t.id
    ensures Proved(ResumedAll(targets), proofs) == Proved(targets, proofs)
  {
    hide Resumed;
    if targets != [] {
      var front, last := targets[..|targets| - 1], targets[|targets| - 1];
      assert targets == front + [last] && last in targets;
      ProvedResumed(front, proofs);
      ResumedAppend(front, [last]);
      assert ResumedAll(targets) == ResumedAll(front) + [Resumed(last)];
    }
  }

  lemma {:induction false} InsertResumed(m: Mutant, x: Target, s: seq<Target>)
    requires WellMeasured(x) && AllWell(s)
    ensures Insert(Resumed(x), ResumedAll(s), WitnessOrder(m)) == ResumedAll(Insert(x, s, WitnessOrder(m)))
  {
    hide Resumed, WellMeasured, WitnessLe;
    if s != [] {
      assert s == [s[0]] + s[1..] && s[0] in s;
      ResumedWitness(m, x, s[0]);
      assert ResumedAll(s) == [Resumed(s[0])] + ResumedAll(s[1..]);
      if WitnessLe(m, x, s[0]) {
        ResumedAppend([x], s);
      } else {
        InsertResumed(m, x, s[1..]);
        ResumedAppend([s[0]], Insert(x, s[1..], WitnessOrder(m)));
      }
    }
  }

  lemma {:induction false} SortResumed(m: Mutant, s: seq<Target>)
    requires AllWell(s)
    ensures Sort(ResumedAll(s), WitnessOrder(m)) == ResumedAll(Sort(s, WitnessOrder(m)))
  {
    hide Resumed, WellMeasured, WitnessOrder, Insert;
    if s != [] {
      assert s == [s[0]] + s[1..] && s[0] in s;
      assert ResumedAll(s) == [Resumed(s[0])] + ResumedAll(s[1..]);
      SortResumed(m, s[1..]);
      SortMembers(s[1..], WitnessOrder(m));
      InsertResumed(m, s[0], Sort(s[1..], WitnessOrder(m)));
    }
  }

  lemma AnyPass(targets: seq<Target>, test: Test)
    requires AllWell(targets)
    requires (test.AtPosition? || test.TakesBranch?) ==> forall t :: t in targets ==> t.covered.Some?
    ensures forall t :: t in targets ==> Passes(test, Resumed(t)) == Passes(test, t)
    ensures forall t :: t in targets ==> Resumed(t).id == t.id
  {
    hide Resumed, Passes, WellMeasured;
    forall t | t in targets ensures Passes(test, Resumed(t)) == Passes(test, t) && Resumed(t).id == t.id {
      ResumedPasses(t, test);
      ResumedBasics(t);
    }
  }

  lemma OrderResumed(m: Mutant, targets: seq<Target>)
    requires AllWell(targets)
    ensures OrderReaching(m, ResumedAll(targets)) == ResumedAll(OrderReaching(m, targets))
  {
    hide Resumed, Passes, WellMeasured, Filter, Sort;
    AnyPass(targets, Measured);
    AnyPass(targets, Unmeasured);
    FilterResumed(targets, Measured);
    FilterResumed(targets, Unmeasured);
    FilterMembers(targets, Measured);
    SortResumed(m, Filter(targets, Measured));
    ResumedAppend(Sort(Filter(targets, Measured), WitnessOrder(m)), Filter(targets, Unmeasured));
  }

  // ---- routes

  /** The same route on resumed targets. */
  ghost function ResumedRoute(r: Route): Route
  {
    r.(reaching := ResumedAll(r.reaching))
  }

  lemma SplitResumed(targets: seq<Target>, test: Option<Test>, reason: Reason)
    requires AllWell(targets)
    requires test.Some? && test.value.TakesBranch? ==> forall t :: t in targets ==> t.covered.Some?
    requires test.Some? ==> !test.value.AtPosition?
    ensures Split(ResumedAll(targets), test, reason).0 == ResumedAll(Split(targets, test, reason).0)
    ensures Split(ResumedAll(targets), test, reason).1 == Split(targets, test, reason).1
    ensures forall t :: t in Split(targets, test, reason).0 ==> t in targets
  {
    hide Resumed, Passes, WellMeasured, Filter, Dropped;
    SplitMembers(targets, test, reason);
    if test.Some? {
      AnyPass(targets, test.value);
      FilterResumed(targets, test.value);
      DroppedResumed(targets, test.value, reason);
    }
  }

  lemma DischargeResumed(m: Mutant, ordered: seq<Target>, blocks: FileCoverage, restored: FileCoverage)
    requires AllWell(ordered) && forall t :: t in ordered ==> t.covered.Some?
    requires BranchTest(m, restored) == BranchTest(m, blocks)
    ensures DischargeReaching(m, ResumedAll(ordered), restored).0 == ResumedAll(DischargeReaching(m, ordered, blocks).0)
    ensures DischargeReaching(m, ResumedAll(ordered), restored).1 == DischargeReaching(m, ordered, blocks).1
  {
    var b := BranchTest(m, blocks);
    assert b.Some? ==> b.value.TakesBranch?;
    hide Resumed, WellMeasured, Split, Proofs, Proved, BranchTest;
    var unbranched := Split(ordered, b, BranchNeverTaken).0;
    SplitResumed(ordered, b, BranchNeverTaken);
    SplitResumed(unbranched, InfectionTest(m), NeverInfected);
    AnyPass(ordered, Measured);
    ProvedResumed(ordered, Proofs(Split(ordered, b, BranchNeverTaken).1 + Split(unbranched, InfectionTest(m), NeverInfected).1));
  }

  /** The mutant lies on a block of its file, and a target without measured coverage has the file. */
  ghost predicate Misled(m: Mutant, targets: seq<Target>, instrumented: seq<FileCoverage>)
  {
    OnBlock(m, instrumented) && exists t :: t in targets && t.covered.None? && m.path in t.coveredFiles
  }

  lemma InstrumentedResumed(m: Mutant, instrumented: seq<FileCoverage>)
    requires OnePerPath(instrumented)
    ensures
      var blocks, restored := Find(instrumented, m.path).0, Find(Restored(Some(instrumented)), m.path).0;
      && Contains(restored, m.line, m.column) == Contains(blocks, m.line, m.column)
      && BranchTest(m, restored) == BranchTest(m, blocks)
    ensures OnBlock(m, Restored(Some(instrumented))) == OnBlock(m, instrumented)
  {
    hide Restored, Contains, StartsWithin, Find;
    var span := NarrowedSpan(m);
    RestoredAnswers(Some(instrumented), m.path, m.line, m.column, if span.Some? then span.value else Block(0, 0, 0, 0));
  }

  lemma RouteOfResumed(m: Mutant, targets: seq<Target>, instrumented: seq<FileCoverage>)
    requires AllWell(targets) && OnePerPath(instrumented) && !Misled(m, targets, instrumented)
    ensures RouteOf(m, ResumedAll(targets), Restored(Some(instrumented))) == ResumedRoute(RouteOf(m, targets, instrumented))
  {
    hide Resumed, Passes, WellMeasured, Filter, Restored, Find, Contains, OrderReaching, DischargeReaching, BranchTest, ResumedAll,
      OnePerPath;
    var restored := Restored(Some(instrumented));
    InstrumentedResumed(m, instrumented);
    var candidates := Filter(targets, HasFile(m.path));
    AnyPass(targets, HasFile(m.path));
    FilterResumed(targets, HasFile(m.path));
    FilterMembers(targets, HasFile(m.path));
    HasFileIs(m.path);
    OrderResumed(m, candidates);
    ResumedLength(candidates);
    if OnBlock(m, instrumented) {
      var test := AtPosition(m.path, m.line, m.column);
      var placed := Filter(candidates, test);
      AnyPass(candidates, test);
      FilterResumed(candidates, test);
      FilterMembers(candidates, test);
      OrderResumed(m, placed);
      OrderPermutes(m, placed);
      DischargeResumed(m, BlockReaching(m, targets), Find(instrumented, m.path).0, Find(restored, m.path).0);
    }
  }

  lemma HasFileIs(path: string)
    ensures forall t: Target :: Passes(HasFile(path), t) <==> path in t.coveredFiles
  {
  }

  lemma ResumedLength(targets: seq<Target>)
    ensures |ResumedAll(targets)| == |targets|
  {
  }

  // ---- suites and probes

  /** What a resumed run reads back of the package suites. */
  ghost function ResumedSuite(s: Suite): Suite
  {
    s.(covered := Some(Restored(s.covered)), instrumented := Some(Restored(s.instrumented)))
  }

  ghost function ResumedSuites(suites: map<string, Suite>): map<string, Suite>
  {
    map pkg | pkg in suites :: ResumedSuite(suites[pkg])
  }

  ghost predicate SuitesWell(suites: map<string, Suite>)
  {
    forall pkg :: pkg in suites ==>
      && (suites[pkg].covered.Some? ==> OnePerPath(suites[pkg].covered.value))
      && (suites[pkg].instrumented.Some? ==> OnePerPath(suites[pkg].instrumented.value))
  }

  lemma SuiteRoutingResumed(m: Mutant, r: Route, suites: map<string, Suite>)
    requires SuitesWell(suites)
    ensures SuiteCoverageRouting(m, ResumedRoute(r), ResumedSuites(suites)) == ResumedRoute(SuiteCoverageRouting(m, r, suites))
  {
    hide Restored, Contains, ResumedAll, Find;
    ResumedLength(r.reaching);
    if m.pkg in suites {
      RestoredAnswers(suites[m.pkg].instrumented, m.path, m.line, m.column, Block(0, 0, 0, 0));
      RestoredAnswers(suites[m.pkg].covered, m.path, m.line, m.column, Block(0, 0, 0, 0));
    }
  }

  lemma {:induction false} AddedResumed(m: Mutant, targets: seq<Target>, known: set<string>)
    requires AllWell(targets)
    ensures Added(m, ResumedAll(targets), known) == ResumedAll(Added(m, targets, known))
    decreases targets
  {
    hide Resumed, WellMeasured, FoundIn;
    if targets != [] {
      var t := targets[0];
      assert targets == [t] + targets[1..] && t in targets;
      ResumedBasics(t);
      assert ResumedAll(targets) == [Resumed(t)] + ResumedAll(targets[1..]);
      if t.id in known || !ProbeReaches(m, t) {
        AddedResumed(m, targets[1..], known);
      } else {
        AddedResumed(m, targets[1..], known + {t.id});
        ResumedAppend([t], Added(m, targets[1..], known + {t.id}));
      }
    }
  }

  lemma IdsResumed(targets: seq<Target>)
    requires AllWell(targets)
    ensures IdsOf(ResumedAll(targets)) == IdsOf(targets)
  {
    hide Resumed, WellMeasured;
    forall i | 0 <= i < |targets| ensures Resumed(targets[i]).id == targets[i].id {
      assert targets[i] in targets;
      ResumedBasics(targets[i]);
    }
  }

  lemma KnownAreIds(r: Route)
    ensures forall id :: id in KnownIds(r) <==> id in IdsOf(r.reaching) || exists d :: d in r.discharged && d.target == id
  {
    forall id ensures id in KnownIds(r) <==> id in IdsOf(r.reaching) || exists d :: d in r.discharged && d.target == id {
      if d :| d in r.discharged && d.target == id {
        var i :| 0 <= i < |r.discharged| && r.discharged[i] == d;
      }
      if id in IdsOf(r.reaching) {
        var i :| 0 <= i < |r.reaching| && IdsOf(r.reaching)[i] == id;
        assert r.reaching[i].id == id;
      }
      if i :| 0 <= i < |r.reaching| && r.reaching[i].id == id {
        assert IdsOf(r.reaching)[i] == id;
      }
    }
  }

  lemma KnownResumed(r: Route)
    requires AllWell(r.reaching)
    ensures KnownIds(ResumedRoute(r)) == KnownIds(r)
  {
    hide KnownIds, IdsOf, ResumedAll;
    KnownAreIds(r);
    KnownAreIds(ResumedRoute(r));
    IdsResumed(r.reaching);
  }

  lemma SuiteProbeResumed(m: Mutant, r: Route, probes: map<string, SuiteProbe>)
    ensures Contradicted(SuiteProbeRouting(m, ResumedRoute(r), probes)) == ResumedRoute(Contradicted(SuiteProbeRouting(m, r, probes)))
    ensures SuiteRuns(Contradicted(SuiteProbeRouting(m, ResumedRoute(r), probes))) ==
            SuiteRuns(Contradicted(SuiteProbeRouting(m, r, probes)))
  {
    hide ResumedAll;
    ResumedLength(r.reaching);
  }

  lemma ProbeRoutingResumed(m: Mutant, targets: seq<Target>, r: Route, probes: map<string, SuiteProbe>)
    requires AllWell(targets) && AllWell(r.reaching)
    ensures ProbeRouting(m, ResumedAll(targets), ResumedRoute(r), probes) == ResumedRoute(ProbeRouting(m, targets, r, probes))
  {
    hide ResumedAll, WellMeasured, OrderReaching, KnownIds, Added, SuiteRuns, IdsOf, SuiteProbeRouting, Contradicted;
    var s := Contradicted(SuiteProbeRouting(m, r, probes));
    SuiteProbeResumed(m, r, probes);
    SuiteProbeKeeps(m, r, probes);
    KnownResumed(s);
    var added := Added(m, targets, KnownIds(s));
    AddedMembers(m, targets, KnownIds(s));
    AddedResumed(m, targets, KnownIds(s));
    IdsResumed(added);
    ResumedAppend(s.reaching, added);
    OrderResumed(m, s.reaching + added);
  }

  /** Evidence that the checkpoint reorders takes every mutant along the same route: the resumed targets in
      the same order, the same discharges and the same suite and probe fields, unless a target without
      measured coverage misleads it. */
  lemma ResumedRouteIsSame(m: Mutant, targets: seq<Target>, instrumented: seq<FileCoverage>, suites: map<string, Suite>,
                           probes: map<string, SuiteProbe>)
    requires AllWell(targets) && OnePerPath(instrumented) && SuitesWell(suites)
    requires !Misled(m, targets, instrumented)
    ensures FullRoute(m, ResumedAll(targets), Restored(Some(instrumented)), ResumedSuites(suites), probes) ==
            ResumedRoute(FullRoute(m, targets, instrumented, suites, probes))
  {
    hide RouteOf, SuiteCoverageRouting, ProbeRouting, ResumedAll, WellMeasured, SuitesWell, OnePerPath, Misled, Restored, ResumedSuites;
    var r := RouteOf(m, targets, instrumented);
    RouteOfResumed(m, targets, instrumented);
    SuiteRoutingResumed(m, r, suites);
    SuitesKeep(m, r, suites);
    ReachingAreTargets(m, targets, instrumented);
    ProbeRoutingResumed(m, targets, SuiteCoverageRouting(m, r, suites), probes);
  }

  // ---- when a route changes

  lemma ResumedUnique(targets: seq<Target>)
    requires AllWell(targets) && UniqueIds(targets)
    ensures UniqueIds(ResumedAll(targets))
  {
    hide Resumed, WellMeasured;
    IdsResumed(targets);
    forall i | 0 <= i < |targets| ensures ResumedAll(targets)[i].id == targets[i].id {
      assert IdsOf(ResumedAll(targets))[i] == IdsOf(targets)[i];
    }
  }

  /** The names that a block route knows, before the probes, are those of the block reaching targets. */
  lemma KnownOnBlock(m: Mutant, targets: seq<Target>, instrumented: seq<FileCoverage>, t: Target)
    requires UniqueIds(targets) && OnBlock(m, instrumented) && t in targets
    ensures t.id in KnownIds(RouteOf(m, targets, instrumented)) <==> t in BlockReaching(m, targets)
  {
    hide Find, Contains, BlockReaching, DischargeReaching, KnownIds, Passes, UniqueIds;
    var r, b := RouteOf(m, targets, instrumented), BlockReaching(m, targets);
    BlockReachingUnique(m, targets);
    DischargePartitions(m, b, Find(instrumented, m.path).0);
    KeptMembers(m, b, Find(instrumented, m.path).0);
    KnownAreIds(r);
    if t.id in IdsOf(r.reaching) {
      var i :| 0 <= i < |r.reaching| && IdsOf(r.reaching)[i] == t.id;
      assert r.reaching[i] in r.reaching;
      UniqueMember(targets, t, r.reaching[i]);
    }
    if d :| d in r.discharged && d.target == t.id {
      var u :| u in b && u.id == d.target;
      UniqueMember(targets, t, u);
    }
    if t in r.reaching {
      var i :| 0 <= i < |r.reaching| && r.reaching[i] == t;
      assert IdsOf(r.reaching)[i] == t.id;
    }
  }

  lemma KnownThroughSuites(m: Mutant, r: Route, suites: map<string, Suite>)
    ensures KnownIds(SuiteCoverageRouting(m, r, suites)) == KnownIds(r)
  {
    SuitesKeep(m, r, suites);
  }

  /** What the full route says of a target's name: discharged, or reaching, and then by coverage or by a probe
      but not by both. */
  lemma NameInFullRoute(m: Mutant, targets: seq<Target>, instrumented: seq<FileCoverage>, suites: map<string, Suite>,
                        probes: map<string, SuiteProbe>, id: string)
    ensures
      var r, f := RouteOf(m, targets, instrumented), FullRoute(m, targets, instrumented, suites, probes);
      && f.discharged == r.discharged
      && (id in IdsOf(f.reaching) <==> id in IdsOf(r.reaching) || id in f.probeReaching)
      && (id in f.probeReaching ==> id !in KnownIds(r))
  {
    hide RouteOf, SuiteCoverageRouting, ProbeRouting, KnownIds, Brought;
    var r := RouteOf(m, targets, instrumented);
    var s := SuiteCoverageRouting(m, r, suites);
    var f := ProbeRouting(m, targets, s, probes);
    var added := Brought(m, targets, s, probes);
    SuitesKeep(m, r, suites);
    KnownThroughSuites(m, r, suites);
    ReachingAreTargets(m, targets, instrumented);
    ProbesOnlyAdd(m, targets, s, probes);
    forall t ensures t in f.reaching <==> t in r.reaching || t in added {
      assert t in f.reaching <==> t in multiset(f.reaching);
    }
    NameIs(f.reaching, id);
    NameIs(r.reaching, id);
    NameIs(added, id);
  }

  lemma NameIs(targets: seq<Target>, id: string)
    ensures id in IdsOf(targets) <==> exists t :: t in targets && t.id == id
  {
    if id in IdsOf(targets) {
      var i :| 0 <= i < |targets| && IdsOf(targets)[i] == id;
      assert targets[i] in targets;
    }
    if t :| t in targets && t.id == id {
      var i :| 0 <= i < |targets| && targets[i] == t;
      assert IdsOf(targets)[i] == id;
    }
  }

  /** On a block, an unmeasured target with the file is known to the route before the checkpoint and unknown
      to it afterwards. */
  lemma MisledIsKnownOnlyBefore(m: Mutant, targets: seq<Target>, instrumented: seq<FileCoverage>, t: Target)
    requires AllWell(targets) && UniqueIds(targets) && OnePerPath(instrumented) && OnBlock(m, instrumented)
    requires t in targets && t.covered.None? && m.path in t.coveredFiles
    ensures t.id in KnownIds(RouteOf(m, targets, instrumented))
    ensures t.id !in KnownIds(RouteOf(m, ResumedAll(targets), Restored(Some(instrumented))))
  {
    hide Resumed, WellMeasured, RouteOf, KnownIds, BlockReaching, Restored, OnBlock, OnePerPath, UniqueIds;
    InstrumentedResumed(m, instrumented);
    KnownOnBlock(m, targets, instrumented, t);
    BlockReachingUnique(m, targets);
    ResumedUnique(targets);
    ResumedMembers(targets);
    ResumedBasics(t);
    assert Resumed(t) in ResumedAll(targets);
    KnownOnBlock(m, ResumedAll(targets), Restored(Some(instrumented)), Resumed(t));
    BlockReachingUnique(m, ResumedAll(targets));
    UnmeasuredIsNowhere(t, m.path, m.line, m.column);
  }

  /** The exact condition: with unique names, a mutant takes another route on resumed evidence if and only
      if it lies on a block and a target without measured coverage has its file. */
  lemma RouteChangesIffMisled(m: Mutant, targets: seq<Target>, instrumented: seq<FileCoverage>, suites: map<string, Suite>,
                              probes: map<string, SuiteProbe>)
    requires AllWell(targets) && UniqueIds(targets) && OnePerPath(instrumented) && SuitesWell(suites)
    ensures
      var before := ResumedRoute(FullRoute(m, targets, instrumented, suites, probes));
      var after := FullRoute(m, ResumedAll(targets), Restored(Some(instrumented)), ResumedSuites(suites), probes);
      after != before <==> Misled(m, targets, instrumented)
  {
    hide RouteOf, FullRoute, ResumedAll, WellMeasured, SuitesWell, OnePerPath, Restored, ResumedSuites, OnBlock, KnownIds, UniqueIds;
    if !Misled(m, targets, instrumented) {
      ResumedRouteIsSame(m, targets, instrumented, suites, probes);
    } else {
      var t :| t in targets && t.covered.None? && m.path in t.coveredFiles;
      var r, q := RouteOf(m, targets, instrumented), RouteOf(m, ResumedAll(targets), Restored(Some(instrumented)));
      MisledIsKnownOnlyBefore(m, targets, instrumented, t);
      KnownAreIds(r);
      KnownAreIds(q);
      NameInFullRoute(m, targets, instrumented, suites, probes, t.id);
      NameInFullRoute(m, ResumedAll(targets), Restored(Some(instrumented)), ResumedSuites(suites), probes, t.id);
      FullRouteWell(m, targets, instrumented, suites, probes);
      IdsResumed(FullRoute(m, targets, instrumented, suites, probes).reaching);
    }
  }

  lemma FullRouteWell(m: Mutant, targets: seq<Target>, instrumented: seq<FileCoverage>, suites: map<string, Suite>,
                      probes: map<string, SuiteProbe>)
    requires AllWell(targets)
    ensures AllWell(FullRoute(m, targets, instrumented, suites, probes).reaching)
  {
    hide WellMeasured, RouteOf, SuiteCoverageRouting, ProbeRouting;
    var r := RouteOf(m, targets, instrumented);
    ReachingAreTargets(m, targets, instrumented);
    SuitesKeep(m, r, suites);
    ProbesKeep(m, targets, SuiteCoverageRouting(m, r, suites), probes);
  }

  /** A misleading target that was not probed reaches the mutant before the checkpoint and is lost to it
      afterwards: no coverage and no probe brings it back. */
  lemma UnmeasuredIsLost(m: Mutant, targets: seq<Target>, instrumented: seq<FileCoverage>, suites: map<string, Suite>,
                         probes: map<string, SuiteProbe>, t: Target)
    requires AllWell(targets) && UniqueIds(targets) && OnePerPath(instrumented) && OnBlock(m, instrumented)
    requires t in targets && t.covered.None? && m.path in t.coveredFiles && !(m.probed && t.probed)
    ensures t in FullRoute(m, targets, instrumented, suites, probes).reaching
    ensures Resumed(t) !in FullRoute(m, ResumedAll(targets), Restored(Some(instrumented)), ResumedSuites(suites), probes).reaching
  {
    hide RouteOf, ProbeRouting, ResumedAll, WellMeasured, OnePerPath, Restored, ResumedSuites, KnownIds, UniqueIds,
      SuiteCoverageRouting, Resumed;
    var others, restored, after := ResumedAll(targets), Restored(Some(instrumented)), ResumedSuites(suites);
    var r, q := RouteOf(m, targets, instrumented), RouteOf(m, others, restored);
    UnmeasuredReaches(m, targets, instrumented, t);
    SuitesKeep(m, r, suites);
    ReachingAreTargets(m, targets, instrumented);
    ProbesKeep(m, targets, SuiteCoverageRouting(m, r, suites), probes);
    MisledIsKnownOnlyBefore(m, targets, instrumented, t);
    ResumedBasics(t);
    KnownAreIds(q);
    SuitesKeep(m, q, after);
    ReachingAreTargets(m, others, restored);
    ProbesOnlyAdd(m, others, SuiteCoverageRouting(m, q, after), probes);
    var f := ProbeRouting(m, others, SuiteCoverageRouting(m, q, after), probes);
    var added := Brought(m, others, SuiteCoverageRouting(m, q, after), probes);
    assert Resumed(t) in f.reaching <==> Resumed(t) in multiset(f.reaching);
    NameIs(q.reaching, t.id);
    assert !ProbeReaches(m, Resumed(t));
  }

  lemma UnmeasuredReaches(m: Mutant, targets: seq<Target>, instrumented: seq<FileCoverage>, t: Target)
    requires UniqueIds(targets) && OnBlock(m, instrumented)
    requires t in targets && t.covered.None? && m.path in t.coveredFiles && !(m.probed && t.probed)
    ensures t in RouteOf(m, targets, instrumented).reaching
  {
    hide Find, Contains, BlockReaching, DischargeReaching;
    BlockReachingUnique(m, targets);
    KeptMembers(m, BlockReaching(m, targets), Find(instrumented, m.path).0);
  }
}
