/** The router prunes no target that could kill the mutant, under stated facts about what a kill
    takes: reaching the mutated position, entering the body a narrowed condition guards, and infecting
    the state in a probe. */
module RoutingSoundness {
  import opened Wrappers
  import opened Ordering
  import opened Coverage
  import opened Routing

  ghost predicate CanonicalEvidence(targets: seq<Target>)
  {
    forall t :: t in targets ==> CanonicalOrNone(t.covered) && Ascending(t.infected)
  }

  predicate OnBlock(m: Mutant, instrumented: seq<FileCoverage>)
  {
    m.line > 0 && m.column > 0 && Contains(Find(instrumented, m.path).0, m.line, m.column)
  }

  /** What it takes for the target to kill the mutant. */
  ghost predicate CanKill(m: Mutant, t: Target, instrumented: seq<FileCoverage>)
  {
    && m.path in t.coveredFiles
    && (OnBlock(m, instrumented) && t.covered.Some? ==> Covers(t.covered.value, m.path, m.line, m.column))
    && (BranchTest(m, Find(instrumented, m.path).0).Some? && t.covered.Some? ==>
         StartsWithin(Lookup(t.covered, m.path), NarrowedSpan(m).value))
    && (m.probed && t.probed ==> m.index in t.infected)
  }

  /** The hypotheses: whatever kills the mutant meets those conditions. */
  ghost predicate Explained(m: Mutant, targets: seq<Target>, instrumented: seq<FileCoverage>, kills: Target -> bool)
  {
    forall t :: t in targets && kills(t) ==> CanKill(m, t, instrumented)
  }

  predicate PassesAll(test: Option<Test>, t: Target)
  {
    test.None? || Passes(test.value, t)
  }

  lemma SplitMembers(targets: seq<Target>, test: Option<Test>, reason: Reason)
    ensures forall t :: t in Split(targets, test, reason).0 <==> t in targets && PassesAll(test, t)
  {
    if test.Some? {
      FilterMembers(targets, test.value);
    }
  }

  lemma {:induction false} DroppedMembers(targets: seq<Target>, test: Test, reason: Reason)
    ensures forall d: Discharge :: d in Dropped(targets, test, reason) <==>
      d.reason == reason && exists t :: t in targets && t.id == d.target && !Passes(test, t)
  {
    if targets != [] {
      var front, last := targets[..|targets| - 1], targets[|targets| - 1];
      DroppedMembers(front, test, reason);
      assert targets == front + [last];
      forall d: Discharge | d.reason == reason && exists t :: t in targets && t.id == d.target && !Passes(test, t)
        ensures d in Dropped(targets, test, reason)
      {
        var t :| t in targets && t.id == d.target && !Passes(test, t);
        if t in front {
          assert d in Dropped(front, test, reason);
        }
      }
    }
  }

  /** The block route keeps exactly the targets that no proof discharges. */
  lemma KeptMembers(m: Mutant, ordered: seq<Target>, blocks: FileCoverage)
    ensures forall t :: t in DischargeReaching(m, ordered, blocks).0 <==>
      t in ordered && PassesAll(BranchTest(m, blocks), t) && PassesAll(InfectionTest(m), t)
  {
    var (unbranched, branch) := Split(ordered, BranchTest(m, blocks), BranchNeverTaken);
    SplitMembers(ordered, BranchTest(m, blocks), BranchNeverTaken);
    SplitMembers(unbranched, InfectionTest(m), NeverInfected);
    var (kept, infection) := Split(unbranched, InfectionTest(m), NeverInfected);
    if branch == [] && infection == [] {
      NothingSplit(ordered, BranchTest(m, blocks), BranchNeverTaken);
      NothingSplit(unbranched, InfectionTest(m), NeverInfected);
    }
  }

  lemma NothingSplit(targets: seq<Target>, test: Option<Test>, reason: Reason)
    requires Split(targets, test, reason).1 == []
    ensures Split(targets, test, reason).0 == targets
  {
    if test.Some? {
      NoneDropped(targets, test.value, reason);
    }
  }

  lemma KillerPasses(m: Mutant, t: Target, instrumented: seq<FileCoverage>)
    requires CanKill(m, t, instrumented) && CanonicalOrNone(t.covered) && Ascending(t.infected)
    ensures Passes(HasFile(m.path), t)
    ensures OnBlock(m, instrumented) ==> Passes(AtPosition(m.path, m.line, m.column), t)
    ensures PassesAll(BranchTest(m, Find(instrumented, m.path).0), t)
    ensures PassesAll(InfectionTest(m), t)
  {
    if t.covered.Some? {
      FindCovers(t.covered.value, m.path, m.line, m.column);
    }
    FoundIsMember(t.infected, m.index);
  }

  lemma RouteKeepsKillers(m: Mutant, targets: seq<Target>, instrumented: seq<FileCoverage>, kills: Target -> bool)
    requires CanonicalEvidence(targets) && Explained(m, targets, instrumented, kills)
    ensures forall t :: t in targets && kills(t) ==> t in RouteOf(m, targets, instrumented).reaching
  {
    hide Find, Contains, CanKill, OrderReaching, Filter, DischargeReaching, Passes, BranchTest, InfectionTest;
    var candidates := Filter(targets, HasFile(m.path));
    var placed := Filter(candidates, AtPosition(m.path, m.line, m.column));
    FilterMembers(targets, HasFile(m.path));
    FilterMembers(candidates, AtPosition(m.path, m.line, m.column));
    OrderPermutes(m, candidates);
    OrderPermutes(m, placed);
    KeptMembers(m, BlockReaching(m, targets), Find(instrumented, m.path).0);
    forall t | t in targets && kills(t) ensures t in RouteOf(m, targets, instrumented).reaching {
      KillerPasses(m, t, instrumented);
    }
  }

  // ---- probe routing only adds

  lemma {:induction false} AddedMembers(m: Mutant, targets: seq<Target>, known: set<string>)
    ensures forall t :: t in Added(m, targets, known) ==> t in targets && ProbeReaches(m, t) && t.id !in known
    decreases targets
  {
    hide ProbeReaches;
    if targets != [] {
      assert targets == [targets[0]] + targets[1..];
      if targets[0].id in known || !ProbeReaches(m, targets[0]) {
        AddedMembers(m, targets[1..], known);
      } else {
        AddedMembers(m, targets[1..], known + {targets[0].id});
      }
    }
  }

  /** The targets that the probes bring in. */
  function Brought(m: Mutant, targets: seq<Target>, r: Route, probes: map<string, SuiteProbe>): seq<Target>
  {
    if SuiteRuns(Contradicted(SuiteProbeRouting(m, r, probes))) then [] else Added(m, targets, KnownIds(r))
  }

  lemma SuiteProbeKeeps(m: Mutant, r: Route, probes: map<string, SuiteProbe>)
    ensures
      var s := Contradicted(SuiteProbeRouting(m, r, probes));
      && s.reaching == r.reaching && s.discharged == r.discharged && s.probeReaching == r.probeReaching
      && KnownIds(s) == KnownIds(r)
  {
  }

  /** Routing by probes keeps every target and every discharge; what it adds was infected by the mutant
      in its probe, was not routed and is not discharged. */
  lemma ProbesOnlyAdd(m: Mutant, targets: seq<Target>, r: Route, probes: map<string, SuiteProbe>)
    requires r.probeReaching == []
    ensures
      var after, added := ProbeRouting(m, targets, r, probes), Brought(m, targets, r, probes);
      && after.discharged == r.discharged
      && multiset(after.reaching) == multiset(r.reaching) + multiset(added)
      && after.probeReaching == IdsOf(added)
      && (forall t :: t in added ==> t in targets && ProbeReaches(m, t) && t.id !in KnownIds(r))
  {
    hide ProbeRouting, Brought, ProbeReaches, KnownIds, OrderReaching;
    var added := Brought(m, targets, r, probes);
    ProbeRoutingForm(m, targets, r, probes);
    BroughtMembers(m, targets, r, probes);
    OrderPermutes(m, r.reaching + added);
    assert added == [] ==> r.reaching + added == r.reaching;
  }

  lemma BroughtMembers(m: Mutant, targets: seq<Target>, r: Route, probes: map<string, SuiteProbe>)
    ensures forall t :: t in Brought(m, targets, r, probes) ==> t in targets && ProbeReaches(m, t) && t.id !in KnownIds(r)
  {
    hide ProbeReaches, KnownIds;
    AddedMembers(m, targets, KnownIds(r));
  }

  lemma ProbeRoutingForm(m: Mutant, targets: seq<Target>, r: Route, probes: map<string, SuiteProbe>)
    requires r.probeReaching == []
    ensures
      var after, added := ProbeRouting(m, targets, r, probes), Brought(m, targets, r, probes);
      && after.discharged == r.discharged && after.probeReaching == IdsOf(added)
      && after.reaching == (if added == [] then r.reaching else OrderReaching(m, r.reaching + added))
  {
    hide OrderReaching, SuiteProbeRouting, Contradicted, KnownIds, Added;
    SuiteProbeKeeps(m, r, probes);
    var added := Brought(m, targets, r, probes);
    assert [] + IdsOf(added) == IdsOf(added);
    if added == [] {
      assert r.reaching + added == r.reaching;
    } else {
      assert |IdsOf(added)| > 0;
    }
  }

  lemma ProbesKeep(m: Mutant, targets: seq<Target>, r: Route, probes: map<string, SuiteProbe>)
    requires r.probeReaching == []
    ensures forall t :: t in r.reaching ==> t in ProbeRouting(m, targets, r, probes).reaching
    ensures forall t :: t in ProbeRouting(m, targets, r, probes).reaching ==> t in r.reaching || t in targets
  {
    hide ProbeRouting, KnownIds, ProbeReaches, Brought;
    var after, added := ProbeRouting(m, targets, r, probes), Brought(m, targets, r, probes);
    ProbesOnlyAdd(m, targets, r, probes);
    forall t ensures t in after.reaching <==> t in r.reaching || t in added {
      assert t in after.reaching <==> t in multiset(after.reaching);
    }
  }

  /** The whole route of a mutant. */
  function FullRoute(m: Mutant, targets: seq<Target>, instrumented: seq<FileCoverage>, suites: map<string, Suite>,
                     probes: map<string, SuiteProbe>): Route
  {
    ProbeRouting(m, targets, SuiteCoverageRouting(m, RouteOf(m, targets, instrumented), suites), probes)
  }

  lemma SuitesKeep(m: Mutant, r: Route, suites: map<string, Suite>)
    ensures
      var after := SuiteCoverageRouting(m, r, suites);
      after.reaching == r.reaching && after.discharged == r.discharged && after.probeReaching == r.probeReaching
  {
  }

  /** No target that kills the mutant is missing from the final route. */
  lemma NoKillerIsLost(m: Mutant, targets: seq<Target>, instrumented: seq<FileCoverage>, suites: map<string, Suite>,
                       probes: map<string, SuiteProbe>, kills: Target -> bool)
    requires CanonicalEvidence(targets) && Explained(m, targets, instrumented, kills)
    ensures forall t :: t in targets && kills(t) ==> t in FullRoute(m, targets, instrumented, suites, probes).reaching
    ensures forall t :: t in FullRoute(m, targets, instrumented, suites, probes).reaching ==> t in targets
  {
    hide ProbeRouting, SuiteCoverageRouting;
    var r := RouteOf(m, targets, instrumented);
    RouteKeepsKillers(m, targets, instrumented, kills);
    ReachingAreTargets(m, targets, instrumented);
    SuitesKeep(m, r, suites);
    ProbesKeep(m, targets, SuiteCoverageRouting(m, r, suites), probes);
  }

  lemma ReachingAreTargets(m: Mutant, targets: seq<Target>, instrumented: seq<FileCoverage>)
    ensures forall t :: t in RouteOf(m, targets, instrumented).reaching ==> t in targets
    ensures RouteOf(m, targets, instrumented).probeReaching == []
  {
    hide Find, Contains, OrderReaching, Filter, DischargeReaching, Passes, BranchTest, InfectionTest;
    var candidates := Filter(targets, HasFile(m.path));
    FilterMembers(targets, HasFile(m.path));
    FilterMembers(candidates, AtPosition(m.path, m.line, m.column));
    OrderPermutes(m, candidates);
    OrderPermutes(m, Filter(candidates, AtPosition(m.path, m.line, m.column)));
    KeptMembers(m, BlockReaching(m, targets), Find(instrumented, m.path).0);
  }

  // ---- the route, exactly

  predicate Positioned(m: Mutant)
  {
    m.line > 0 && m.column > 0
  }

  /** A block under this path starts inside the span, both ends counting in. */
  ghost predicate BlockStarts(files: seq<FileCoverage>, path: string, span: Block)
  {
    exists b :: b in Found(ToSets(files), path) &&
      !Before(b.startLine, b.startColumn, span.startLine, span.startColumn) &&
      !Before(span.endLine, span.endColumn, b.startLine, b.startColumn)
  }

  /** The mutant narrows a condition over a body: the span is one, the mutant lies before it, and the
      instrumentation has a block in it. */
  ghost predicate Narrows(m: Mutant, instrumented: seq<FileCoverage>)
  {
    m.branch.Some? &&
    var b := m.branch.value;
    && b.startLine >= 1 && b.startColumn >= 1 && b.endLine >= 1 && b.endColumn >= 1
    && (b.startLine < b.endLine || (b.startLine == b.endLine && b.startColumn <= b.endColumn))
    && (m.line < b.startLine || (m.line == b.startLine && m.column < b.startColumn))
    && BlockStarts(instrumented, m.path, b)
  }

  lemma StartsBySet(files: seq<FileCoverage>, path: string, span: Block)
    requires OnePerPath(files)
    ensures StartsWithin(Find(files, path).0, span) <==> BlockStarts(files, path, span)
  {
    FindBlocks(files, path);
    var f := Find(files, path).0;
    if StartsWithin(f, span) {
      var i :| 0 <= i < |f.blocks| &&
        !Before(f.blocks[i].startLine, f.blocks[i].startColumn, span.startLine, span.startColumn) &&
        !Before(span.endLine, span.endColumn, f.blocks[i].startLine, f.blocks[i].startColumn);
      assert f.blocks[i] in f.blocks;
    }
    if b :| b in Found(ToSets(files), path) &&
            !Before(b.startLine, b.startColumn, span.startLine, span.startColumn) &&
            !Before(span.endLine, span.endColumn, b.startLine, b.startColumn) {
      var i :| 0 <= i < |f.blocks| && f.blocks[i] == b;
    }
  }

  /** The reasons for which a target of the mutant's file need not run, on a block of the instrumentation. */
  ghost predicate RuledOut(m: Mutant, t: Target, instrumented: seq<FileCoverage>)
  {
    || (t.covered.Some? && !Covers(t.covered.value, m.path, m.line, m.column))
    || (Narrows(m, instrumented) && t.covered.Some? && !BlockStarts(t.covered.value, m.path, m.branch.value))
    || (m.probed && t.probed && m.index !in t.infected)
  }

  ghost predicate OnePerPathEach(targets: seq<Target>)
  {
    forall t :: t in targets ==> (t.covered.Some? ==> OnePerPath(t.covered.value)) && Ascending(t.infected)
  }

  lemma KeptIffNotRuledOut(m: Mutant, t: Target, instrumented: seq<FileCoverage>)
    requires OnePerPath(instrumented) && (t.covered.Some? ==> OnePerPath(t.covered.value)) && Ascending(t.infected)
    ensures
      var blocks := Find(instrumented, m.path).0;
      Passes(AtPosition(m.path, m.line, m.column), t) && PassesAll(BranchTest(m, blocks), t) && PassesAll(InfectionTest(m), t)
      <==> !RuledOut(m, t, instrumented)
  {
    hide Contains, StartsWithin, Covers, BlockStarts, Find, FoundIn, OnePerPath;
    FoundIsMember(t.infected, m.index);
    if t.covered.Some? {
      FindCovers(t.covered.value, m.path, m.line, m.column);
    }
    if m.branch.Some? {
      StartsBySet(instrumented, m.path, m.branch.value);
      if t.covered.Some? {
        StartsBySet(t.covered.value, m.path, m.branch.value);
      }
    }
  }

  /** The route holds exactly the targets of the mutant's file that are not ruled out, and says how it was
      made; without a position, or off the instrumented blocks, nothing is ruled out. */
  lemma RouteIsExact(m: Mutant, targets: seq<Target>, instrumented: seq<FileCoverage>)
    requires OnePerPath(instrumented) && OnePerPathEach(targets)
    ensures
      var r := RouteOf(m, targets, instrumented);
      var onBlock := Positioned(m) && Covers(instrumented, m.path, m.line, m.column);
      && (forall t :: t in r.reaching <==>
           t in targets && m.path in t.coveredFiles && (onBlock ==> !RuledOut(m, t, instrumented)))
      && (!onBlock ==> r.discharged == [])
      && (r.granularity == if onBlock then ByBlock else ByFile)
      && (r.fallback == if onBlock then NoFallback else if Positioned(m) then OutsideBlocks else PositionUnknown)
      && r.fileCandidates == |set i | 0 <= i < |targets| && m.path in targets[i].coveredFiles|
  {
    hide Contains, OrderReaching, Filter, DischargeReaching, Passes, BranchTest, InfectionTest, RuledOut, Find, Covers, OnePerPath;
    var candidates := Filter(targets, HasFile(m.path));
    var placed := Filter(candidates, AtPosition(m.path, m.line, m.column));
    FindCovers(instrumented, m.path, m.line, m.column);
    FilterMembers(targets, HasFile(m.path));
    FilterMembers(candidates, AtPosition(m.path, m.line, m.column));
    OrderPermutes(m, candidates);
    OrderPermutes(m, placed);
    KeptMembers(m, BlockReaching(m, targets), Find(instrumented, m.path).0);
    FilterCounts(targets, m.path);
    forall t | t in targets
      ensures Passes(HasFile(m.path), t) <==> m.path in t.coveredFiles
      ensures
        var blocks := Find(instrumented, m.path).0;
        var passes := Passes(AtPosition(m.path, m.line, m.column), t) && PassesAll(BranchTest(m, blocks), t) &&
                      PassesAll(InfectionTest(m), t);
        passes <==> !RuledOut(m, t, instrumented)
    {
      KeptIffNotRuledOut(m, t, instrumented);
      FileTest(m.path, t);
    }
  }

  lemma FileTest(path: string, t: Target)
    ensures Passes(HasFile(path), t) <==> path in t.coveredFiles
  {
  }

  lemma {:induction false} FilterCounts(targets: seq<Target>, path: string)
    ensures |Filter(targets, HasFile(path))| == |set i | 0 <= i < |targets| && path in targets[i].coveredFiles|
  {
    var all := set i | 0 <= i < |targets| && path in targets[i].coveredFiles;
    if targets == [] {
      assert all == {};
    } else {
      var n, front := |targets| - 1, targets[..|targets| - 1];
      FilterCounts(front, path);
      var before := set i | 0 <= i < |front| && path in front[i].coveredFiles;
      forall i ensures i in all <==> i in before || (i == n && path in targets[n].coveredFiles) {
        assert 0 <= i < n ==> front[i] == targets[i];
      }
      assert all == before + (if path in targets[n].coveredFiles then {n} else {});
    }
  }

  // ---- what the flags of a package suite mean

  ghost predicate SuiteCovers(covered: Option<seq<FileCoverage>>, m: Mutant)
  {
    covered.Some? && Covers(covered.value, m.path, m.line, m.column)
  }

  /** The suite's instrumentation has the mutated position. */
  ghost predicate SuiteMeasures(m: Mutant, suites: map<string, Suite>)
  {
    m.pkg in suites && m.line > 0 && m.column > 0 && SuiteCovers(suites[m.pkg].instrumented, m)
  }

  ghost predicate SuiteReaches(m: Mutant, suites: map<string, Suite>)
  {
    SuiteMeasures(m, suites) && SuiteCovers(suites[m.pkg].covered, m)
  }

  predicate SuiteProbed(m: Mutant, probes: map<string, SuiteProbe>)
  {
    m.probed && m.pkg in probes && probes[m.pkg].measured
  }

  predicate SuiteInfects(m: Mutant, probes: map<string, SuiteProbe>)
  {
    SuiteProbed(m, probes) && m.index in probes[m.pkg].infected
  }

  /** The evidence of the suite says that it never gets to the mutant: it was measured over the position and
      did not cover it, or was probed and the value never differed.  An infection speaks against coverage. */
  ghost predicate SuiteMisses(m: Mutant, suites: map<string, Suite>, probes: map<string, SuiteProbe>)
  {
    || (SuiteMeasures(m, suites) && !SuiteReaches(m, suites) && !SuiteInfects(m, probes))
    || (SuiteProbed(m, probes) && !SuiteInfects(m, probes))
  }

  ghost predicate SuitesInOrder(suites: map<string, Suite>)
  {
    forall pkg :: pkg in suites ==>
      && (suites[pkg].covered.Some? ==> OnePerPath(suites[pkg].covered.value))
      && (suites[pkg].instrumented.Some? ==> OnePerPath(suites[pkg].instrumented.value))
  }

  lemma SuiteLookup(covered: Option<seq<FileCoverage>>, m: Mutant)
    requires covered.Some? ==> OnePerPath(covered.value)
    ensures Contains(Lookup(covered, m.path), m.line, m.column) <==> SuiteCovers(covered, m)
  {
    if covered.Some? {
      FindCovers(covered.value, m.path, m.line, m.column);
    }
  }

  /** What coverage routing finds out about the suite of an unrouted mutant. */
  lemma SuiteCoverageMeans(m: Mutant, r: Route, suites: map<string, Suite>)
    requires SuitesInOrder(suites) && Unrouted(r) && r.suiteCoverage == "" && !r.suiteReached
    ensures
      var after := SuiteCoverageRouting(m, r, suites);
      && (after.suiteCoverage != "" <==> SuiteMeasures(m, suites))
      && (after.suiteReached <==> SuiteReaches(m, suites))
      && (after.suiteWholeTree == if SuiteMeasures(m, suites) then suites[m.pkg].wholeTree else r.suiteWholeTree)
      && (after.suiteDuration == if m.pkg in suites then suites[m.pkg].duration else r.suiteDuration)
  {
    hide Contains, Lookup, OnePerPath, SuiteCovers;
    if m.pkg in suites {
      SuiteLookup(suites[m.pkg].instrumented, m);
      SuiteLookup(suites[m.pkg].covered, m);
    }
  }

  lemma PlainRoute(m: Mutant, targets: seq<Target>, instrumented: seq<FileCoverage>)
    ensures
      var r := RouteOf(m, targets, instrumented);
      r.suiteCoverage == r.suiteProbe == "" && !r.suiteReached && !r.suiteInfected && r.suiteDuration == 0 && !r.suiteWholeTree
  {
  }

  /** What probe routing adds to the fields of the suite: nothing for a routed mutant. */
  lemma SuiteProbeMeans(m: Mutant, targets: seq<Target>, s: Route, probes: map<string, SuiteProbe>)
    requires s.suiteProbe == "" && !s.suiteInfected
    ensures
      var r := ProbeRouting(m, targets, s, probes);
      var probed := Unrouted(s) && SuiteProbed(m, probes);
      var infected := Unrouted(s) && SuiteInfects(m, probes);
      && (r.suiteReached == s.suiteReached) && (r.suiteInfected <==> infected) && (r.suiteProbe != "" <==> probed)
      && (r.suiteCoverage == if s.suiteCoverage != "" && !s.suiteReached && infected then "" else s.suiteCoverage)
      && (r.suiteWholeTree == if probed then probes[m.pkg].wholeTree else s.suiteWholeTree)
      && (r.suiteDuration == if probed && s.suiteDuration == 0 then probes[m.pkg].duration else s.suiteDuration)
  {
    hide OrderReaching, Added, KnownIds;
  }

  /** The suite fields of the whole route, in terms of the evidence: they are filled only for a mutant that
      nothing routes, and coverage that an infection contradicts is taken back. */
  lemma SuiteEvidenceDecides(m: Mutant, targets: seq<Target>, instrumented: seq<FileCoverage>, suites: map<string, Suite>,
                             probes: map<string, SuiteProbe>)
    requires SuitesInOrder(suites)
    ensures
      var r := FullRoute(m, targets, instrumented, suites, probes);
      var free := Unrouted(RouteOf(m, targets, instrumented));
      && (Unrouted(r) ==> free)
      && (r.suiteReached <==> free && SuiteReaches(m, suites))
      && (r.suiteInfected <==> free && SuiteInfects(m, probes))
      && (r.suiteProbe != "" <==> free && SuiteProbed(m, probes))
      && (r.suiteCoverage != "" <==>
           free && SuiteMeasures(m, suites) && (SuiteReaches(m, suites) || !SuiteInfects(m, probes)))
      && (free ==> r.suiteWholeTree == if SuiteProbed(m, probes) then probes[m.pkg].wholeTree
                                       else SuiteMeasures(m, suites) && suites[m.pkg].wholeTree)
      && (free ==> r.suiteDuration == if m.pkg in suites && (suites[m.pkg].duration != 0 || !SuiteProbed(m, probes))
                                      then suites[m.pkg].duration
                                      else if SuiteProbed(m, probes) then probes[m.pkg].duration else 0)
  {
    hide RouteOf, SuiteMeasures, SuiteReaches, SuitesInOrder, ProbeRouting, SuiteProbed, SuiteInfects;
    var r := RouteOf(m, targets, instrumented);
    PlainRoute(m, targets, instrumented);
    ReachingAreTargets(m, targets, instrumented);
    var s := SuiteCoverageRouting(m, r, suites);
    if Unrouted(r) {
      SuiteCoverageMeans(m, r, suites);
    }
    ReachedIsMeasured(m, suites, probes);
    hide SuiteCoverageRouting;
    SuitesKeep(m, r, suites);
    SuiteProbeMeans(m, targets, s, probes);
    ProbeRoutingForm(m, targets, s, probes);
    if r.reaching != [] {
      ProbesKeep(m, targets, s, probes);
      assert r.reaching[0] in r.reaching;
    }
  }

  lemma ReachedIsMeasured(m: Mutant, suites: map<string, Suite>, probes: map<string, SuiteProbe>)
    ensures SuiteReaches(m, suites) ==> SuiteMeasures(m, suites)
    ensures SuiteMeasures(m, suites) ==> m.pkg in suites
    ensures SuiteProbed(m, probes) ==> m.pkg in probes
  {
  }

  // ---- discharging partitions the block reaching targets

  ghost predicate UniqueIds(targets: seq<Target>)
  {
    forall i, j :: 0 <= i < j < |targets| ==> targets[i].id != targets[j].id
  }

  /** Why a target is discharged, the branch proof being consulted first. */
  function Failure(m: Mutant, blocks: FileCoverage, t: Target): Option<Reason>
  {
    if !PassesAll(BranchTest(m, blocks), t) then Some(BranchNeverTaken)
    else if !PassesAll(InfectionTest(m), t) then Some(NeverInfected)
    else None
  }

  lemma {:induction false} ProofsMembers(list: seq<Discharge>)
    ensures forall id :: id in Proofs(list) ==> Discharge(id, Proofs(list)[id]) in list
    ensures forall d :: d in list ==> d.target in Proofs(list)
  {
    if list != [] {
      var front, last := list[..|list| - 1], list[|list| - 1];
      ProofsMembers(front);
      assert list == front + [last];
    }
  }

  lemma UniqueMember(targets: seq<Target>, a: Target, b: Target)
    requires UniqueIds(targets) && a in targets && b in targets && a.id == b.id
    ensures a == b
  {
  }

  lemma SplitDropped(targets: seq<Target>, test: Option<Test>, reason: Reason)
    ensures forall d: Discharge :: d in Split(targets, test, reason).1 <==>
      d.reason == reason && exists t :: t in targets && t.id == d.target && !PassesAll(test, t)
  {
    if test.Some? {
      DroppedMembers(targets, test.value, reason);
      forall d: Discharge | d.reason == reason && exists t :: t in targets && t.id == d.target && !PassesAll(test, t)
        ensures d in Split(targets, test, reason).1
      {
        var t :| t in targets && t.id == d.target && !PassesAll(test, t);
        assert !Passes(test.value, t);
      }
    }
  }

  /** The collected proofs tell of each target whether and why it is discharged. */
  lemma ProofsAreFailures(m: Mutant, ordered: seq<Target>, blocks: FileCoverage, t: Target)
    requires UniqueIds(ordered) && t in ordered
    ensures
      var (unbranched, branch) := Split(ordered, BranchTest(m, blocks), BranchNeverTaken);
      var (kept, infection) := Split(unbranched, InfectionTest(m), NeverInfected);
      var proofs := Proofs(branch + infection);
      && (t.id in proofs <==> Failure(m, blocks, t).Some?)
      && (t.id in proofs ==> Some(proofs[t.id]) == Failure(m, blocks, t))
  {
    hide PassesAll, BranchTest, InfectionTest, Split, Proofs;
    var b, n := BranchTest(m, blocks), InfectionTest(m);
    var (unbranched, branch) := Split(ordered, b, BranchNeverTaken);
    var (kept, infection) := Split(unbranched, n, NeverInfected);
    SplitDropped(ordered, b, BranchNeverTaken);
    SplitMembers(ordered, b, BranchNeverTaken);
    SplitDropped(unbranched, n, NeverInfected);
    ProofsMembers(branch + infection);
    var proofs := Proofs(branch + infection);
    if !PassesAll(b, t) {
      assert Discharge(t.id, BranchNeverTaken) in branch;
      forall u | u in unbranched ensures u.id != t.id {
        if u.id == t.id {
          UniqueMember(ordered, u, t);
        }
      }
      assert Discharge(t.id, NeverInfected) !in infection;
    } else {
      assert t in unbranched;
      forall u | u in ordered && u.id == t.id ensures u == t {
        UniqueMember(ordered, u, t);
      }
      assert Discharge(t.id, BranchNeverTaken) !in branch;
      assert Discharge(t.id, NeverInfected) in infection <==> !PassesAll(n, t);
    }
    assert t.id in proofs ==> Discharge(t.id, proofs[t.id]) in branch || Discharge(t.id, proofs[t.id]) in infection;
  }

  lemma SplitAppend(targets: seq<Target>, t: Target, test: Option<Test>, reason: Reason)
    ensures Split(targets + [t], test, reason).0 == Split(targets, test, reason).0 + (if PassesAll(test, t) then [t] else [])
  {
    assert (targets + [t])[..|targets|] == targets;
  }

  /** Each target is either kept or listed, in a list that follows the failures. */
  lemma {:induction false} KeptOrListed(m: Mutant, targets: seq<Target>, blocks: FileCoverage, proofs: map<string, Reason>)
    requires forall t :: t in targets ==> (t.id in proofs <==> Failure(m, blocks, t).Some?)
    ensures
      var unbranched := Split(targets, BranchTest(m, blocks), BranchNeverTaken).0;
      |Split(unbranched, InfectionTest(m), NeverInfected).0| + |Proved(targets, proofs)| == |targets|
  {
    hide Split, PassesAll, BranchTest, InfectionTest;
    var b, n := BranchTest(m, blocks), InfectionTest(m);
    if targets == [] {
      EmptySplits(b, n);
    } else {
      var front, last := targets[..|targets| - 1], targets[|targets| - 1];
      assert targets == front + [last];
      KeptOrListed(m, front, blocks, proofs);
      SplitAppend(front, last, b, BranchNeverTaken);
      SplitAppend(Split(front, b, BranchNeverTaken).0, last, n, NeverInfected);
      assert last in targets;
      if !PassesAll(b, last) {
        assert Split(front, b, BranchNeverTaken).0 + [] == Split(front, b, BranchNeverTaken).0;
      }
    }
  }

  lemma EmptySplits(b: Option<Test>, n: Option<Test>)
    ensures Split([], b, BranchNeverTaken).0 == [] && Split([], n, NeverInfected).0 == []
  {
  }

  lemma {:induction false} ProvedMembers(targets: seq<Target>, proofs: map<string, Reason>)
    ensures forall d :: d in Proved(targets, proofs) <==>
      d.target in proofs && d.reason == proofs[d.target] && exists t :: t in targets && t.id == d.target
  {
    if targets != [] {
      var front, last := targets[..|targets| - 1], targets[|targets| - 1];
      ProvedMembers(front, proofs);
      assert targets == front + [last];
      assert forall t :: t in targets <==> t in front || t == last;
    }
  }

  /** With unique target names, each block reaching target is either kept or discharged, never both and
      never neither, and each discharge carries its own reason. */
  lemma DischargePartitions(m: Mutant, ordered: seq<Target>, blocks: FileCoverage)
    requires UniqueIds(ordered)
    ensures
      var (kept, discharged) := DischargeReaching(m, ordered, blocks);
      && |kept| + |discharged| == |ordered|
      && (forall t :: t in ordered ==> (t in kept <==> Failure(m, blocks, t).None?))
      && (forall t :: t in ordered && t !in kept ==> Discharge(t.id, Failure(m, blocks, t).value) in discharged)
      && (forall d :: d in discharged ==> exists t :: t in ordered && t.id == d.target && Failure(m, blocks, t) == Some(d.reason))
  {
    hide Split, PassesAll, BranchTest, InfectionTest, Proofs, Proved;
    var (unbranched, branch) := Split(ordered, BranchTest(m, blocks), BranchNeverTaken);
    var (kept, infection) := Split(unbranched, InfectionTest(m), NeverInfected);
    var proofs := Proofs(branch + infection);
    KeptMembers(m, ordered, blocks);
    forall t | t in ordered
      ensures (t.id in proofs <==> Failure(m, blocks, t).Some?) && (t.id in proofs ==> Some(proofs[t.id]) == Failure(m, blocks, t))
    {
      ProofsAreFailures(m, ordered, blocks, t);
    }
    KeptOrListed(m, ordered, blocks, proofs);
    ProvedMembers(ordered, proofs);
    if branch == [] && infection == [] {
      NothingSplit(ordered, BranchTest(m, blocks), BranchNeverTaken);
      NothingSplit(unbranched, InfectionTest(m), NeverInfected);
      forall t | t in ordered ensures Failure(m, blocks, t).None? {
      }
    }
  }

  lemma {:induction false} FilterShrinks(targets: seq<Target>, test: Test)
    ensures multiset(Filter(targets, test)) <= multiset(targets)
  {
    if targets != [] {
      var front, last := targets[..|targets| - 1], targets[|targets| - 1];
      FilterShrinks(front, test);
      assert targets == front + [last];
    }
  }

  lemma UniqueShrinks(a: seq<Target>, b: seq<Target>)
    requires multiset(b) <= multiset(a) && UniqueIds(a)
    ensures UniqueIds(b)
  {
    forall i, j | 0 <= i < j < |b| ensures b[i].id != b[j].id {
      if b[i].id == b[j].id {
        assert b[i] in multiset(b) && b[j] in multiset(b);
        UniqueMember(a, b[i], b[j]);
        OccursTwice(b, i, j);
        forall k, l | 0 <= k < l < |a| ensures a[k] != a[l] {
          assert a[k].id != a[l].id;
        }
        OccursOnce(a, b[i]);
      }
    }
  }

  lemma BlockReachingUnique(m: Mutant, targets: seq<Target>)
    requires UniqueIds(targets)
    ensures UniqueIds(BlockReaching(m, targets))
    ensures forall t :: t in BlockReaching(m, targets) <==>
      t in targets && Passes(HasFile(m.path), t) && Passes(AtPosition(m.path, m.line, m.column), t)
  {
    hide Passes, UniqueIds, OrderReaching;
    var candidates := Filter(targets, HasFile(m.path));
    var placed := Filter(candidates, AtPosition(m.path, m.line, m.column));
    FilterShrinks(targets, HasFile(m.path));
    FilterShrinks(candidates, AtPosition(m.path, m.line, m.column));
    FilterMembers(targets, HasFile(m.path));
    FilterMembers(candidates, AtPosition(m.path, m.line, m.column));
    OrderPermutes(m, placed);
    UniqueShrinks(targets, BlockReaching(m, targets));
  }

  /** Before the probes, the route and its discharges make up exactly the block reaching targets, and no
      discharged target kills the mutant. */
  lemma DischargedNeverKill(m: Mutant, targets: seq<Target>, instrumented: seq<FileCoverage>, kills: Target -> bool)
    requires UniqueIds(targets) && CanonicalEvidence(targets) && Explained(m, targets, instrumented, kills)
    requires OnBlock(m, instrumented)
    ensures
      var r, b := RouteOf(m, targets, instrumented), BlockReaching(m, targets);
      && |r.reaching| + |r.discharged| == |b|
      && (forall t :: t in b ==> (t in r.reaching <==> forall d :: d in r.discharged ==> d.target != t.id))
      && (forall d, t :: d in r.discharged && t in targets && t.id == d.target ==> t in b && !kills(t))
  {
    hide Passes, Find, BranchTest, InfectionTest, CanKill, DischargeReaching, BlockReaching, Contains, UniqueIds;
    var r, b := RouteOf(m, targets, instrumented), BlockReaching(m, targets);
    var blocks := Find(instrumented, m.path).0;
    BlockReachingUnique(m, targets);
    DischargePartitions(m, b, blocks);
    forall d, t | d in r.discharged && t in targets && t.id == d.target
      ensures t in b && Failure(m, blocks, t) == Some(d.reason) && !kills(t)
    {
      var u :| u in b && u.id == d.target && Failure(m, blocks, u) == Some(d.reason);
      UniqueMember(targets, t, u);
      if kills(t) {
        KillerPasses(m, t, instrumented);
      }
    }
    forall t | t in b ensures t in r.reaching <==> forall d :: d in r.discharged ==> d.target != t.id {
      if t !in r.reaching {
        assert Discharge(t.id, Failure(m, blocks, t).value) in r.discharged;
      }
    }
  }

  /** Every target that the mutant infected in its probe is routed, or its name already was. */
  lemma {:induction false} AddedComplete(m: Mutant, targets: seq<Target>, known: set<string>, t: Target)
    requires t in targets && ProbeReaches(m, t)
    ensures t.id in known || t.id in IdsOf(Added(m, targets, known))
    decreases targets
  {
    hide ProbeReaches;
    var next := if targets[0].id in known || !ProbeReaches(m, targets[0]) then known else known + {targets[0].id};
    assert targets == [targets[0]] + targets[1..];
    if t != targets[0] {
      AddedComplete(m, targets[1..], next, t);
    }
    if next != known {
      var rest := Added(m, targets[1..], next);
      assert Added(m, targets, known) == [targets[0]] + rest;
      assert IdsOf([targets[0]] + rest) == [targets[0].id] + IdsOf(rest);
    }
  }

  // ---- the whole route, exactly

  /** The package suite itself has to run for an unrouted mutant: it was infected, or it covers the mutant
      and was not probed.  Then the probes of targets are not asked. */
  ghost predicate SuiteSettles(m: Mutant, r: Route, suites: map<string, Suite>, probes: map<string, SuiteProbe>)
  {
    Unrouted(r) && (SuiteInfects(m, probes) || (SuiteReaches(m, suites) && !SuiteProbed(m, probes)))
  }

  /** A probe brings the target in: the mutant infected it, and the route knows nothing of it. */
  ghost predicate Brings(m: Mutant, r: Route, t: Target)
  {
    && m.probed && t.probed && m.index in t.infected
    && (forall u :: u in r.reaching ==> u.id != t.id) && forall d :: d in r.discharged ==> d.target != t.id
  }

  lemma SuiteRunsIff(m: Mutant, r: Route, suites: map<string, Suite>, probes: map<string, SuiteProbe>)
    requires SuitesInOrder(suites) && r.suiteCoverage == r.suiteProbe == "" && !r.suiteReached && !r.suiteInfected
    ensures SuiteRuns(Contradicted(SuiteProbeRouting(m, SuiteCoverageRouting(m, r, suites), probes))) <==>
            SuiteSettles(m, r, suites, probes)
  {
    hide SuiteMeasures, SuiteReaches, SuitesInOrder;
    if Unrouted(r) {
      SuiteCoverageMeans(m, r, suites);
      ReachedIsMeasured(m, suites, probes);
    }
    hide SuiteCoverageRouting;
    SuitesKeep(m, r, suites);
  }

  lemma KnownOrBrought(m: Mutant, r: Route, t: Target)
    requires Ascending(t.infected)
    ensures ProbeReaches(m, t) && t.id !in KnownIds(r) <==> Brings(m, r, t)
  {
    FoundIsMember(t.infected, m.index);
    hide FoundIn;
    forall u | u in r.reaching ensures u.id in KnownIds(r) {
      var i :| 0 <= i < |r.reaching| && r.reaching[i] == u;
    }
    forall d | d in r.discharged ensures d.target in KnownIds(r) {
      var i :| 0 <= i < |r.discharged| && r.discharged[i] == d;
    }
  }

  lemma AddedExactly(m: Mutant, targets: seq<Target>, known: set<string>)
    requires UniqueIds(targets)
    ensures forall t :: t in Added(m, targets, known) <==> t in targets && ProbeReaches(m, t) && t.id !in known
  {
    hide ProbeReaches, UniqueIds;
    AddedMembers(m, targets, known);
    var added := Added(m, targets, known);
    forall t | t in targets && ProbeReaches(m, t) && t.id !in known ensures t in added {
      AddedComplete(m, targets, known, t);
      var i :| 0 <= i < |added| && IdsOf(added)[i] == t.id;
      assert added[i] in added;
      UniqueMember(targets, added[i], t);
    }
  }

  /** The final route: the targets of the route by position, and those the probes bring in unless the suite
      settles the matter; the latter by name, too. */
  lemma FullRouteIsExact(m: Mutant, targets: seq<Target>, instrumented: seq<FileCoverage>, suites: map<string, Suite>,
                         probes: map<string, SuiteProbe>)
    requires UniqueIds(targets) && OnePerPathEach(targets) && SuitesInOrder(suites)
    ensures
      var r, f := RouteOf(m, targets, instrumented), FullRoute(m, targets, instrumented, suites, probes);
      var asked := !SuiteSettles(m, r, suites, probes);
      && f.discharged == r.discharged
      && (forall t :: t in f.reaching <==> t in r.reaching || (asked && t in targets && Brings(m, r, t)))
      && (forall id :: id in f.probeReaching <==> asked && exists t :: t in targets && t.id == id && Brings(m, r, t))
      && f.granularity == r.granularity && f.fallback == r.fallback && f.fileCandidates == r.fileCandidates
  {
    hide RouteOf, SuiteRuns, Contradicted, SuiteProbeRouting, ProbeReaches, Brings, UniqueIds, SuitesInOrder, SuiteSettles,
      OrderReaching, KnownIds;
    var r := RouteOf(m, targets, instrumented);
    var s := SuiteCoverageRouting(m, r, suites);
    PlainRoute(m, targets, instrumented);
    ReachingAreTargets(m, targets, instrumented);
    SuitesKeep(m, r, suites);
    SuitesKeepKind(m, r, suites);
    SuiteRunsIff(m, r, suites, probes);
    KnownIsKept(r, s);
    ProbesKeepKind(m, targets, s, probes);
    hide SuiteCoverageRouting, ProbeRouting;
    ProbesOnlyAdd(m, targets, s, probes);
    AddedExactly(m, targets, KnownIds(r));
    var f, added := ProbeRouting(m, targets, s, probes), Brought(m, targets, s, probes);
    forall t | t in targets ensures ProbeReaches(m, t) && t.id !in KnownIds(r) <==> Brings(m, r, t) {
      KnownOrBrought(m, r, t);
    }
    forall t ensures t in f.reaching <==> t in r.reaching || t in added {
      assert t in f.reaching <==> t in multiset(f.reaching);
    }
    forall id ensures id in IdsOf(added) <==> exists t :: t in added && t.id == id {
      if id in IdsOf(added) {
        var i :| 0 <= i < |added| && IdsOf(added)[i] == id;
        assert added[i] in added;
      }
      if t :| t in added && t.id == id {
        var i :| 0 <= i < |added| && added[i] == t;
        assert IdsOf(added)[i] == id;
      }
    }
  }

  lemma KnownIsKept(r: Route, s: Route)
    requires r.reaching == s.reaching && r.discharged == s.discharged
    ensures KnownIds(r) == KnownIds(s)
  {
  }

  lemma SuitesKeepKind(m: Mutant, r: Route, suites: map<string, Suite>)
    ensures
      var after := SuiteCoverageRouting(m, r, suites);
      after.granularity == r.granularity && after.fallback == r.fallback && after.fileCandidates == r.fileCandidates
  {
  }

  lemma ProbesKeepKind(m: Mutant, targets: seq<Target>, r: Route, probes: map<string, SuiteProbe>)
    ensures
      var after := ProbeRouting(m, targets, r, probes);
      after.granularity == r.granularity && after.fallback == r.fallback && after.fileCandidates == r.fileCandidates
  {
  }
}
