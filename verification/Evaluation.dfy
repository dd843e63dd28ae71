/** The evaluation of one mutant from route to verdict (internal/assure/mutation.go,
    evaluateMutationSeed): reuse what earlier runs know, or run, and record what was learnt. */
module Evaluation {
  import opened Wrappers
  import opened Ordering
  import opened Coverage
  import opened Routing
  import opened RoutingSoundness
  import opened Groups
  import opened Evidence
  import opened EvidenceSoundness
  import Encoding

  const UNREACHED := "unreached-mutant"
  const SURVIVING := "surviving-mutant"
  const SURVIVED_SUMMARY := "all reaching tests passed with this mutation active"
  const UNREACHED_SUMMARY := "no measured top-level target reached this mutation; its package suite survived"
  const SUITE_UNREACHED_SUMMARY := "the measured package suite never reached this mutation"
  const SUITE_UNINFECTED_SUMMARY :=
    "no measured top-level target reached this mutation; its measured package suite never made the mutated value differ"

  function Infections(discharged: seq<Discharge>): nat
  {
    if discharged == [] then 0
    else Infections(discharged[1..]) + (if discharged[0].reason.NeverInfected? then 1 else 0)
  }

  const BRANCH_CLAUSE := "none takes the branch this mutation narrows"
  const INFECTION_CLAUSE := "none makes the mutated value differ"

  function MixedClause(branch: int, infection: int): string
  {
    Encoding.Format(branch) + " take no branch this mutation narrows and " + Encoding.Format(infection) +
    " never make the mutated value differ"
  }

  /** How the discharges are explained. */
  function Clause(discharged: seq<Discharge>): string
  {
    var infection := Infections(discharged);
    var branch := |discharged| - infection;
    if infection == 0 then BRANCH_CLAUSE
    else if branch == 0 then INFECTION_CLAUSE
    else MixedClause(branch, infection)
  }

  lemma {:induction false} InfectionsAppend(a: seq<Discharge>, d: Discharge)
    ensures Infections(a + [d]) == Infections(a) + (if d.reason.NeverInfected? then 1 else 0)
  {
    if a == [] {
      assert [] + [d] == [d] && [d][1..] == [];
    } else {
      assert (a + [d])[1..] == a[1..] + [d];
      InfectionsAppend(a[1..], d);
    }
  }

  lemma {:induction false} InfectionsCount(discharged: seq<Discharge>)
    ensures Infections(discharged) == |set i | 0 <= i < |discharged| && discharged[i].reason.NeverInfected?|
  {
    var all := set i | 0 <= i < |discharged| && discharged[i].reason.NeverInfected?;
    if discharged == [] {
      assert all == {};
    } else {
      var n, front := |discharged| - 1, discharged[..|discharged| - 1];
      assert discharged == front + [discharged[n]];
      InfectionsCount(front);
      InfectionsAppend(front, discharged[n]);
      var before := set i | 0 <= i < n && front[i].reason.NeverInfected?;
      forall i ensures i in all <==> i in before || (i == n && discharged[n].reason.NeverInfected?) {
        assert 0 <= i < n ==> front[i] == discharged[i];
      }
      assert all == before + (if discharged[n].reason.NeverInfected? then {n} else {});
    }
  }

  /** The explanation counts the discharges of each kind. */
  lemma ClauseTells(discharged: seq<Discharge>)
    ensures
      var infected := |set i | 0 <= i < |discharged| && discharged[i].reason.NeverInfected?|;
      Clause(discharged) == if infected == 0 then BRANCH_CLAUSE
                            else if infected == |discharged| then INFECTION_CLAUSE
                            else MixedClause(|discharged| - infected, infected)
  {
    hide MixedClause;
    InfectionsCount(discharged);
  }

  function SurvivalSummary(discharged: seq<Discharge>): (s: string)
    ensures s != ""
  {
    if discharged == [] then SURVIVED_SUMMARY
    else SURVIVED_SUMMARY + "; " + Encoding.Format(|discharged|) + " more discharged without running because " + Clause(discharged)
  }

  /** A run of the whole package suite, and whether it was seen to read the whole tree. */
  datatype SuiteRunResult = SuiteRunResult(outcome: Outcome, wholeTree: bool)

  datatype Seed =
    | ReusedKill(provenance: string)
    | ReusedFinding(finding: FindingSeed, provenance: string)
    | Evaluated(verdict: SeedVerdict)

  /** What the evaluation asks to record. */
  function Learnt(m: Mutant, r: Route, v: SeedVerdict, suite: SuiteRunResult): Option<Entry>
  {
    match v
    case Unreached =>
      var summary := if r.suiteCoverage != "" && !r.suiteReached then SUITE_UNREACHED_SUMMARY else SUITE_UNINFECTED_SUMMARY;
      Some(SuiteRun(m, r.suiteWholeTree, FindingSeed(UNREACHED, summary)))
    case AllDischarged => None
    case BySuite(outcome) =>
      if outcome.Survived? then Some(SuiteRun(m, suite.wholeTree, FindingSeed(UNREACHED, UNREACHED_SUMMARY))) else None
    case ByGroups(KilledBy(killers)) => Some(Kill(m, killers))
    case ByGroups(SurvivedAll(executed)) =>
      if executed == [] then None else Some(Survival(m, executed, FindingSeed(SURVIVING, SurvivalSummary(r.discharged))))
    case ByGroups(_) => None
  }

  /** An unreached mutant is settled by its suite before earlier survivals are consulted; a recorded kill
      comes before everything. */
  function SeedOf(t: Tables, records: map<string, Record>, m: Mutant, r: Route, run: Run, observe: Observe,
                  suite: SuiteRunResult): Seed
  {
    var v := EvaluateSeed(r, t.batchKey, run, observe, suite.outcome);
    if m.id in records && KillReusable(t, records[m.id], r) then ReusedKill(records[m.id].provenance)
    else if v.Unreached? then Evaluated(v)
    else if m.id in records && VerdictReusable(t, m, records[m.id], r) then
      ReusedFinding(records[m.id].proof.finding, records[m.id].provenance)
    else Evaluated(v)
  }

  function EntryOf(m: Mutant, r: Route, s: Seed, suite: SuiteRunResult): Option<Entry>
  {
    if s.Evaluated? then Learnt(m, r, s.verdict, suite) else None
  }

  /** What the evidence on a suite is trusted for: a suite that was measured over the mutant and missed it,
      or was probed and never infected, or whose run survives, does not kill the mutant; and it was seen to
      read the whole tree, in that measurement or run, if it does. */
  ghost predicate SuiteTrusted(t: Tables, w: World, m: Mutant, suites: map<string, Suite>, probes: map<string, SuiteProbe>,
                               suite: SuiteRunResult)
  {
    var escapes := w.escapes(m.id, SuiteIdentity(m.pkg)) && m.pkg !in t.suiteBaselineWhole;
    && (SuiteMisses(m, suites, probes) ==> !SuiteKills(w, m.id, m.pkg))
    && (SuiteProbed(m, probes) && !SuiteInfects(m, probes) && escapes ==> probes[m.pkg].wholeTree)
    && (SuiteMeasures(m, suites) && !SuiteReaches(m, suites) && !SuiteProbed(m, probes) && escapes ==> suites[m.pkg].wholeTree)
    && (suite.outcome.Survived? ==> !SuiteKills(w, m.id, m.pkg) && (escapes ==> suite.wholeTree))
  }

  /** The flags of a route say of the suite what its evidence does. */
  ghost predicate FlagsTrusted(t: Tables, w: World, m: Mutant, r: Route, suite: SuiteRunResult)
  {
    var escapes := w.escapes(m.id, SuiteIdentity(m.pkg)) && m.pkg !in t.suiteBaselineWhole;
    && ((r.suiteCoverage != "" && !r.suiteReached) || (r.suiteProbe != "" && !r.suiteInfected) ==>
         !SuiteKills(w, m.id, m.pkg) && (escapes ==> r.suiteWholeTree))
    && (suite.outcome.Survived? ==> !SuiteKills(w, m.id, m.pkg) && (escapes ==> suite.wholeTree))
  }

  lemma FlagsFollow(t: Tables, w: World, m: Mutant, instrumented: seq<FileCoverage>, suites: map<string, Suite>,
                    probes: map<string, SuiteProbe>, suite: SuiteRunResult)
    requires SuitesInOrder(suites) && SuiteTrusted(t, w, m, suites, probes, suite)
    ensures FlagsTrusted(t, w, m, FullRoute(m, t.targets, instrumented, suites, probes), suite)
  {
    hide FullRoute, SuiteMeasures, SuiteReaches, SuiteProbed, SuiteInfects, SuitesInOrder, Unrouted;
    SuiteEvidenceDecides(m, t.targets, instrumented, suites, probes);
    ReachedIsMeasured(m, suites, probes);
    InfectedIsProbed(m, probes);
  }

  lemma InfectedIsProbed(m: Mutant, probes: map<string, SuiteProbe>)
    ensures SuiteInfects(m, probes) ==> SuiteProbed(m, probes)
  {
  }

  /** A mutant is called unreached without running anything exactly when nothing routes or discharges it and
      the evidence on its suite misses it. */
  lemma UnreachedIff(m: Mutant, targets: seq<Target>, instrumented: seq<FileCoverage>, suites: map<string, Suite>,
                     probes: map<string, SuiteProbe>, key: Target -> string, run: Run, observe: Observe, suite: Outcome)
    requires SuitesInOrder(suites)
    ensures
      var r := FullRoute(m, targets, instrumented, suites, probes);
      var v := EvaluateSeed(r, key, run, observe, suite);
      && (v.Unreached? <==> r.reaching == [] && r.discharged == [] && SuiteMisses(m, suites, probes))
      && (v.AllDischarged? <==> r.reaching == [] && r.discharged != [])
      && (v.BySuite? <==> r.reaching == [] && r.discharged == [] && !SuiteMisses(m, suites, probes))
      && (v.BySuite? ==> v.outcome == suite)
      && (v.ByGroups? <==> r.reaching != [])
  {
    hide FullRoute, SuiteMeasures, SuiteReaches, SuiteProbed, SuiteInfects, SuitesInOrder, RouteOf;
    SuiteEvidenceDecides(m, targets, instrumented, suites, probes);
    ReachedIsMeasured(m, suites, probes);
    InfectedIsProbed(m, probes);
  }

  lemma LearntIsJustified(t: Tables, w: World, m: Mutant, r: Route, run: Run, observe: Observe, suite: SuiteRunResult)
    requires Faithful(run, KillerOf(w, m)) && ObservesSoundly(t, w, m.id, observe) && FlagsTrusted(t, w, m, r, suite)
    ensures
      var e := Learnt(m, r, EvaluateSeed(r, t.batchKey, run, observe, suite.outcome), suite);
      e.Some? ==> Justified(t, w, e.value)
  {
    hide GroupsOf, Evaluate, Faithful, ObservesSoundly, SurvivalSummary;
    EvaluationIsJustified(t, w, m, GroupsOf(r.reaching, t.batchKey), run, observe,
                          FindingSeed(SURVIVING, SurvivalSummary(r.discharged)));
  }

  /** A seed says that the mutant was killed by a target, or that no target kills it, or neither. */
  predicate SaysKilled(s: Seed)
  {
    s.ReusedKill? || (s.Evaluated? && s.verdict.ByGroups? && s.verdict.verdict.KilledBy?)
  }

  predicate SaysAlive(s: Seed)
  {
    || s.ReusedFinding?
    || (s.Evaluated? && (s.verdict.Unreached? || s.verdict.AllDischarged?))
    || (s.Evaluated? && s.verdict.ByGroups? && s.verdict.verdict.SurvivedAll?)
  }

  /** The whole evaluation of a mutant, reuse included, agrees with running every target, and what it asks
      to record is so. */
  lemma SeedIsTrue(o: Oracle, t: Tables, w: World, records: map<string, Record>, m: Mutant, instrumented: seq<FileCoverage>,
                   suites: map<string, Suite>, probes: map<string, SuiteProbe>, run: Run, observe: Observe,
                   suite: SuiteRunResult)
    requires Consistent(o, t, w) && StoreSound(o, records)
    requires CanonicalEvidence(t.targets) && Explained(m, t.targets, instrumented, KillerOf(w, m))
    requires Faithful(run, KillerOf(w, m)) && ObservesSoundly(t, w, m.id, observe)
    requires SuitesInOrder(suites) && SuiteTrusted(t, w, m, suites, probes, suite)
    ensures
      var r := FullRoute(m, t.targets, instrumented, suites, probes);
      var s := SeedOf(t, records, m, r, run, observe, suite);
      && (SaysKilled(s) ==> exists x :: x in t.targets && KillerOf(w, m)(x))
      && (SaysAlive(s) ==> forall x :: x in t.targets ==> !KillerOf(w, m)(x))
      && (s.Evaluated? && s.verdict.Unreached? ==> !SuiteKills(w, m.id, m.pkg))
      && (EntryOf(m, r, s, suite).Some? ==> Justified(t, w, EntryOf(m, r, s, suite).value))
  {
    hide FullRoute, EvaluateSeed, Explained, CanonicalEvidence, Faithful, Consistent, ObservesSoundly, SuiteTrusted,
      KillReusable, VerdictReusable, RecordSound, Learnt, Justified, FlagsTrusted, SuitesInOrder, SuiteMisses;
    FlagsFollow(t, w, m, instrumented, suites, probes, suite);
    UnreachedIff(m, t.targets, instrumented, suites, probes, t.batchKey, run, observe, suite.outcome);
    TrustedMisses(t, w, m, suites, probes, suite);
    var r := FullRoute(m, t.targets, instrumented, suites, probes);
    var kills := KillerOf(w, m);
    NoKillerIsLost(m, t.targets, instrumented, suites, probes, kills);
    EvaluationAgreesWithBruteForce(m, t.targets, instrumented, suites, probes, t.batchKey, run, observe, suite.outcome, kills);
    LearntIsJustified(t, w, m, r, run, observe, suite);
    if m.id in records {
      RecordSpeaks(o, t, w, m, records[m.id], r);
    }
  }

  lemma TrustedMisses(t: Tables, w: World, m: Mutant, suites: map<string, Suite>, probes: map<string, SuiteProbe>,
                      suite: SuiteRunResult)
    requires SuiteTrusted(t, w, m, suites, probes, suite)
    ensures SuiteMisses(m, suites, probes) ==> !SuiteKills(w, m.id, m.pkg)
  {
  }

  /** What a reusable record says of the targets that reach the mutant. */
  lemma RecordSpeaks(o: Oracle, t: Tables, w: World, m: Mutant, record: Record, r: Route)
    requires Consistent(o, t, w) && RecordSound(o, record) && record.mutant == m.id
    ensures KillReusable(t, record, r) ==> exists x :: x in r.reaching && KillerOf(w, m)(x)
    ensures VerdictReusable(t, m, record, r) ==> forall x :: x in r.reaching ==> !KillerOf(w, m)(x)
  {
    hide Consistent, KillReusable, RecordSound;
    if KillReusable(t, record, r) {
      ReusedKillIsTrue(o, t, w, m, record, r);
    }
    if VerdictReusable(t, m, record, r) {
      if record.proof.SurvivedProof? {
        ReusedSurvivalIsTrue(o, t, w, m, record, r);
      } else {
        ReusedUnreachedIsTrue(o, t, w, m, record, r);
      }
    }
  }

  /** evaluateMutationSeed, for a route. */
  method EvaluateMutationSeed(e: MutationEvidence, m: Mutant, r: Route, run: Run, observe: Observe, suite: SuiteRunResult)
    returns (seed: Seed)
    requires e.Valid()
    modifies e
    ensures e.Valid() && seed == SeedOf(e.tables, e.records, m, r, run, observe, suite)
    ensures
      var entry := EntryOf(m, r, seed, suite);
      e.recorded == if entry.Some? then Evidence.Recorded(e.tables, e.provenance, old(e.recorded), entry.value) else old(e.recorded)
    ensures e.reused == if seed.Evaluated? then old(e.reused) else old(e.reused)[m.id := seed.provenance]
  {
    hide KillReusable, VerdictReusable, Evidence.Recorded, GroupsOf, Evaluate, SurvivalSummary;
    var provenance := e.ReuseKill(m, r);
    if provenance.Some? {
      return ReusedKill(provenance.value);
    }
    if Unrouted(r) && r.suiteCoverage != "" && !r.suiteReached {
      e.RecordSuite(m, r.suiteWholeTree, FindingSeed(UNREACHED, SUITE_UNREACHED_SUMMARY));
      return Evaluated(Unreached);
    }
    if Unrouted(r) && r.suiteProbe != "" && !r.suiteInfected {
      e.RecordSuite(m, r.suiteWholeTree, FindingSeed(UNREACHED, SUITE_UNINFECTED_SUMMARY));
      return Evaluated(Unreached);
    }
    var finding, from := e.ReuseVerdict(m, r);
    if finding.Some? {
      return ReusedFinding(finding.value, from);
    }
    if r.reaching == [] && r.discharged != [] {
      return Evaluated(AllDischarged);
    }
    if r.reaching == [] {
      if suite.outcome.Survived? {
        e.RecordSuite(m, suite.wholeTree, FindingSeed(UNREACHED, UNREACHED_SUMMARY));
      }
      return Evaluated(BySuite(suite.outcome));
    }
    var groups := MutationTargetGroups(r.reaching, e.tables.batchKey);
    var verdict := EvaluateGroups(groups, run, observe);
    if verdict.KilledBy? {
      e.RecordKill(m, verdict.killers);
    } else if verdict.SurvivedAll? && verdict.executed != [] {
      e.RecordSurvived(m, verdict.executed, FindingSeed(SURVIVING, SurvivalSummary(r.discharged)));
    }
    seed := Evaluated(ByGroups(verdict));
  }

  // ---- campaigns: any sequence of runs, each evaluating any mutants on what the last one stored

  datatype Trial = Trial(mutant: Mutant, instrumented: seq<FileCoverage>, suites: map<string, Suite>,
                         probes: map<string, SuiteProbe>, run: Run, observe: Observe, suite: SuiteRunResult)

  datatype Campaign = Campaign(tables: Tables, world: World, provenance: string, trials: seq<Trial>, catalog: set<string>)

  function RouteIn(t: Tables, trial: Trial): Route
  {
    FullRoute(trial.mutant, t.targets, trial.instrumented, trial.suites, trial.probes)
  }

  function SeedIn(t: Tables, records: map<string, Record>, trial: Trial): Seed
  {
    SeedOf(t, records, trial.mutant, RouteIn(t, trial), trial.run, trial.observe, trial.suite)
  }

  function EntryIn(t: Tables, records: map<string, Record>, trial: Trial): Option<Entry>
  {
    EntryOf(trial.mutant, RouteIn(t, trial), SeedIn(t, records, trial), trial.suite)
  }

  function EntriesOf(t: Tables, records: map<string, Record>, trials: seq<Trial>): seq<Entry>
  {
    if trials == [] then [] else
      var entry := EntryIn(t, records, trials[0]);
      (if entry.Some? then [entry.value] else []) + EntriesOf(t, records, trials[1..])
  }

  function StoreAt(start: map<string, Record>, campaigns: seq<Campaign>): map<string, Record>
  {
    if campaigns == [] then start else
      var before, c := StoreAt(start, campaigns[..|campaigns| - 1]), campaigns[|campaigns| - 1];
      StoreAfter(before, RunLog(c.tables, c.world, c.provenance, EntriesOf(c.tables, before, c.trials), c.catalog))
  }

  /** The hypotheses about one trial: its evidence is in order, kills are explained, batches are faithful,
      escapes are observed, and the evidence on the suite is in order and trusted. */
  ghost predicate Sincere(t: Tables, w: World, trial: Trial)
  {
    && CanonicalEvidence(t.targets) && Explained(trial.mutant, t.targets, trial.instrumented, KillerOf(w, trial.mutant))
    && Faithful(trial.run, KillerOf(w, trial.mutant)) && ObservesSoundly(t, w, trial.mutant.id, trial.observe)
    && SuitesInOrder(trial.suites) && SuiteTrusted(t, w, trial.mutant, trial.suites, trial.probes, trial.suite)
  }

  ghost predicate SincereCampaign(o: Oracle, c: Campaign)
  {
    Consistent(o, c.tables, c.world) && forall i :: 0 <= i < |c.trials| ==> Sincere(c.tables, c.world, c.trials[i])
  }

  lemma TrialIsTrue(o: Oracle, t: Tables, w: World, records: map<string, Record>, trial: Trial)
    requires Consistent(o, t, w) && StoreSound(o, records) && Sincere(t, w, trial)
    ensures
      var s := SeedIn(t, records, trial);
      && (SaysKilled(s) ==> exists x :: x in t.targets && KillerOf(w, trial.mutant)(x))
      && (SaysAlive(s) ==> forall x :: x in t.targets ==> !KillerOf(w, trial.mutant)(x))
      && (EntryIn(t, records, trial).Some? ==> Justified(t, w, EntryIn(t, records, trial).value))
  {
    hide *;
    SincereParts(t, w, trial);
    SeedIsTrue(o, t, w, records, trial.mutant, trial.instrumented, trial.suites, trial.probes, trial.run, trial.observe, trial.suite);
    TrialParts(t, records, trial);
  }

  lemma SincereParts(t: Tables, w: World, trial: Trial)
    requires Sincere(t, w, trial)
    ensures CanonicalEvidence(t.targets) && Explained(trial.mutant, t.targets, trial.instrumented, KillerOf(w, trial.mutant))
    ensures Faithful(trial.run, KillerOf(w, trial.mutant)) && ObservesSoundly(t, w, trial.mutant.id, trial.observe)
    ensures SuitesInOrder(trial.suites) && SuiteTrusted(t, w, trial.mutant, trial.suites, trial.probes, trial.suite)
  {
  }

  lemma TrialParts(t: Tables, records: map<string, Record>, trial: Trial)
    ensures
      var r := FullRoute(trial.mutant, t.targets, trial.instrumented, trial.suites, trial.probes);
      var s := SeedOf(t, records, trial.mutant, r, trial.run, trial.observe, trial.suite);
      SeedIn(t, records, trial) == s && EntryIn(t, records, trial) == EntryOf(trial.mutant, r, s, trial.suite)
  {
  }

  lemma {:induction false} EntriesAreJustified(o: Oracle, t: Tables, w: World, records: map<string, Record>, trials: seq<Trial>)
    requires Consistent(o, t, w) && StoreSound(o, records) && forall i :: 0 <= i < |trials| ==> Sincere(t, w, trials[i])
    ensures forall i :: 0 <= i < |EntriesOf(t, records, trials)| ==> Justified(t, w, EntriesOf(t, records, trials)[i])
  {
    hide Consistent, StoreSound, Sincere, Justified, EntryIn;
    if trials != [] {
      TrialIsTrue(o, t, w, records, trials[0]);
      EntriesAreJustified(o, t, w, records, trials[1..]);
    }
  }

  /** Whatever campaigns came before, on whatever edits of the tree, the store they leave is sound. */
  lemma {:induction false} CampaignsStaySound(o: Oracle, start: map<string, Record>, campaigns: seq<Campaign>)
    requires StoreSound(o, start) && forall i :: 0 <= i < |campaigns| ==> SincereCampaign(o, campaigns[i])
    ensures StoreSound(o, StoreAt(start, campaigns))
  {
    hide StoreSound, Sincere, Consistent, Justified, EntriesOf, StoreAfter;
    if campaigns != [] {
      var front, c := campaigns[..|campaigns| - 1], campaigns[|campaigns| - 1];
      CampaignsStaySound(o, start, front);
      var before := StoreAt(start, front);
      EntriesAreJustified(o, c.tables, c.world, before, c.trials);
      var log := RunLog(c.tables, c.world, c.provenance, EntriesOf(c.tables, before, c.trials), c.catalog);
      assert Truthful(o, log);
      OneRunStaysSound(o, before, log);
    }
  }

  lemma OneRunStaysSound(o: Oracle, store: map<string, Record>, run: RunLog)
    requires StoreSound(o, store) && Truthful(o, run)
    ensures StoreSound(o, StoreAfter(store, run))
  {
    hide Truthful, RecordSound;
    RecordedIsSound(o, run, |run.entries|);
  }

  /** Any verdict of any campaign, reused or fresh, is the one of running every target: what it calls
      killed is killed by some target, and what it calls alive is killed by none. */
  lemma VerdictsAreTrue(o: Oracle, start: map<string, Record>, campaigns: seq<Campaign>, n: nat, k: nat)
    requires StoreSound(o, start) && forall i :: 0 <= i < |campaigns| ==> SincereCampaign(o, campaigns[i])
    requires n < |campaigns| && k < |campaigns[n].trials|
    ensures
      var c := campaigns[n];
      var s := SeedIn(c.tables, StoreAt(start, campaigns[..n]), c.trials[k]);
      var kills := KillerOf(c.world, c.trials[k].mutant);
      && (SaysKilled(s) ==> exists x :: x in c.tables.targets && kills(x))
      && (SaysAlive(s) ==> forall x :: x in c.tables.targets ==> !kills(x))
  {
    hide StoreSound, Sincere, Consistent, SeedIn, StoreAt;
    CampaignsStaySound(o, start, campaigns[..n]);
    TrialIsTrue(o, campaigns[n].tables, campaigns[n].world, StoreAt(start, campaigns[..n]), campaigns[n].trials[k]);
  }
}
