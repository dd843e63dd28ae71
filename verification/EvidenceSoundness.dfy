/** The evidence stays true from run to run, and a verdict reused from it is the one that a fresh,
    conclusive evaluation gives. */
module EvidenceSoundness {
  import opened Wrappers
  import opened Ordering
  import opened Coverage
  import opened Routing
  import opened RoutingSoundness
  import opened Groups
  import opened Evidence

  /** What decides whether a target kills a mutant: its identity and the key of what it depends on.  A
      target escapes when, under its narrow key, it reads beyond the narrow inputs; then only the key over
      the whole tree decides. */
  datatype Oracle = Oracle(escapes: (string, Identity, string) -> bool, narrow: (string, Identity, string) -> bool,
                           whole: (string, Identity, string) -> bool)

  /** What is so during one run: which targets and suites kill, and which read beyond their narrow inputs. */
  datatype World = World(kills: (string, Identity) -> bool, escapes: (string, Identity) -> bool)

  function SuiteIdentity(pkg: string): Identity
  {
    Identity(pkg, "", "package suite")
  }

  function SuiteTarget(k: SuiteKey): TargetKey
  {
    TargetKey(SuiteIdentity(k.pkg), k.key, k.wholeTree)
  }

  /** With the behaviour of this key, the target kills. */
  predicate KeyKills(o: Oracle, m: string, k: TargetKey)
  {
    if k.wholeTree then o.whole(m, k.id, k.key) else o.narrow(m, k.id, k.key)
  }

  /** A narrow key is recorded only of a target that does not escape. */
  predicate Contained(o: Oracle, m: string, k: TargetKey)
  {
    k.wholeTree || !o.escapes(m, k.id, k.key)
  }

  /** A killed record keeps a true killer; a survived record lists only non-killers. */
  ghost predicate RecordSound(o: Oracle, r: Record)
  {
    match r.proof
    case KilledProof(killedBy) =>
      (forall k :: k in killedBy ==> Contained(o, r.mutant, k)) && exists k :: k in killedBy && KeyKills(o, r.mutant, k)
    case SurvivedProof(exhausted, _) =>
      forall k :: k in exhausted ==> Contained(o, r.mutant, k) && !KeyKills(o, r.mutant, k)
    case UnreachedProof(suite, _) =>
      Contained(o, r.mutant, SuiteTarget(suite)) && !KeyKills(o, r.mutant, SuiteTarget(suite))
  }

  predicate SuiteKills(w: World, m: string, pkg: string)
  {
    w.kills(m, SuiteIdentity(pkg))
  }

  /** What keys promise of a run: a narrow key decides for what does not escape, and a whole key decides.
      A target without a key may do anything. */
  ghost predicate Determined(o: Oracle, w: World, id: Identity, narrow: string, whole: string)
  {
    && (narrow != "" ==> forall m :: w.escapes(m, id) == o.escapes(m, id, narrow))
    && (narrow != "" ==> forall m :: !w.escapes(m, id) ==> w.kills(m, id) == o.narrow(m, id, narrow))
    && (whole != "" ==> forall m :: w.kills(m, id) == o.whole(m, id, whole))
  }

  /** The keys of a run fit the oracle. */
  ghost predicate Consistent(o: Oracle, t: Tables, w: World)
  {
    && (forall id :: Determined(o, w, id, t.Key(id), t.WholeKey(id)))
    && (forall pkg :: Determined(o, w, SuiteIdentity(pkg), t.SuiteKeyNow(pkg), t.WholeSuiteKey(pkg)))
  }

  /** The observer marked every target that escaped. */
  ghost predicate Observed(t: Tables, w: World, m: string, targets: seq<Target>)
  {
    forall x :: x in targets && w.escapes(m, Identify(x)) ==> t.Wide(x)
  }

  /** What a run asks to record is what it saw: a group that killed holds a killer, targets that survived
      hold none, an unreached mutant is not killed by its suite; and escapes were observed. */
  ghost predicate Justified(t: Tables, w: World, e: Entry)
  {
    match e
    case Kill(m, targets) =>
      Observed(t, w, m.id, targets) && exists x :: x in targets && w.kills(m.id, Identify(x))
    case Survival(m, targets, _) =>
      Observed(t, w, m.id, targets) && forall x :: x in targets ==> !w.kills(m.id, Identify(x))
    case SuiteRun(m, whole, _) =>
      && !SuiteKills(w, m.id, m.pkg)
      && (w.escapes(m.id, SuiteIdentity(m.pkg)) ==> whole || m.pkg in t.suiteBaselineWhole)
  }

  /** A key that matches today speaks for today. */
  lemma MatchedKeyDecides(o: Oracle, t: Tables, w: World, m: string, k: TargetKey)
    requires Consistent(o, t, w) && Contained(o, m, k) && t.Matches(k.id, k)
    ensures KeyKills(o, m, k) == w.kills(m, k.id)
  {
  }

  lemma MatchedSuiteDecides(o: Oracle, t: Tables, w: World, m: string, k: SuiteKey)
    requires Consistent(o, t, w) && Contained(o, m, SuiteTarget(k)) && t.SuiteMatches(k.pkg, k)
    ensures KeyKills(o, m, SuiteTarget(k)) == SuiteKills(w, m, k.pkg)
  {
  }

  lemma RecordedKeyDecides(o: Oracle, t: Tables, w: World, m: string, targets: seq<Target>, x: Target)
    requires Consistent(o, t, w) && Observed(t, w, m, targets) && x in targets && t.KeyOf(x).key != ""
    ensures Contained(o, m, t.KeyOf(x)) && KeyKills(o, m, t.KeyOf(x)) == w.kills(m, Identify(x))
  {
  }

  /** Whatever is recorded is sound. */
  lemma RecordingIsSound(o: Oracle, t: Tables, w: World, e: Entry, provenance: string)
    requires Consistent(o, t, w) && Justified(t, w, e) && ProofOf(t, e).Some?
    ensures RecordSound(o, Record(e.mutant.id, e.mutant.path, e.mutant.pkg, provenance, ProofOf(t, e).value))
  {
    hide KeyKills, Contained, Consistent;
    match e
    case Kill(m, targets) =>
      var keys := KeysOf(t, targets);
      forall i | 0 <= i < |targets|
        ensures Contained(o, m.id, keys[i]) && KeyKills(o, m.id, keys[i]) == w.kills(m.id, Identify(targets[i]))
      {
        RecordedKeyDecides(o, t, w, m.id, targets, targets[i]);
      }
      var x :| x in targets && w.kills(m.id, Identify(x));
      var i :| 0 <= i < |targets| && targets[i] == x;
      assert keys[i] in keys;
    case Survival(m, targets, _) =>
      forall i | 0 <= i < |targets|
        ensures Contained(o, m.id, t.KeyOf(targets[i])) && !KeyKills(o, m.id, t.KeyOf(targets[i]))
      {
        RecordedKeyDecides(o, t, w, m.id, targets, targets[i]);
      }
    case SuiteRun(m, whole, _) =>
      SuiteRecordDecides(o, t, w, m, whole);
  }

  lemma SuiteRecordDecides(o: Oracle, t: Tables, w: World, m: Mutant, whole: bool)
    requires Consistent(o, t, w) && !SuiteKills(w, m.id, m.pkg) && t.SuiteKeyOf(m.pkg, whole).key != ""
    requires w.escapes(m.id, SuiteIdentity(m.pkg)) ==> whole || m.pkg in t.suiteBaselineWhole
    ensures
      var k := SuiteTarget(t.SuiteKeyOf(m.pkg, whole));
      Contained(o, m.id, k) && !KeyKills(o, m.id, k)
  {
  }

  /** The kills of today, as the router and the groups see them. */
  function KillerOf(w: World, m: Mutant): Target -> bool
  {
    x => w.kills(m.id, Identify(x))
  }

  /** A narrow key recorded of a target that escapes, because nobody observed it, matches after a change
      that the target reads and the key does not cover. */
  lemma EscapesMustBeObserved()
    ensures exists o: Oracle, t: Tables, w: World, u: Tables, v: World, m: string, x: Target ::
      && Consistent(o, t, w) && Consistent(o, u, v) && !t.Wide(x) && u.Matches(Identify(x), t.KeyOf(x))
      && w.kills(m, Identify(x)) && !v.kills(m, Identify(x))
  {
    var x := Target("t", "p", "T", "test", [], None, [], 1, 0, false, false, []);
    var id := Identify(x);
    var o := Oracle((m, i, k) => true, (m, i, k) => false, (m, i, k) => k == "before");
    var t := Tables([x], map[id := "narrow"], {}, {id}, map[], {}, y => "before", (p, ks) => "", y => "");
    var u := t.(wholeKey := y => "after");
    var w, v := World((m, i) => true, (m, i) => true), World((m, i) => false, (m, i) => true);
    OneTarget(x, t);
    OneTarget(x, u);
    assert Consistent(o, t, w) && Consistent(o, u, v);
    assert w.kills("m", id) && !v.kills("m", id);
    assert !t.Wide(x) && u.Matches(id, t.KeyOf(x));
  }

  lemma OneTarget(x: Target, t: Tables)
    requires t.targets == [x]
    ensures forall id :: t.WholeKey(id) == if id == Identify(x) then t.wholeKey(x) else ""
  {
    forall id ensures LastOf(t.targets, id) == if id == Identify(x) then Some(x) else None {
      assert t.targets[|t.targets| - 1] == x && t.targets[..0] == [];
      assert LastOf([], id) == None;
    }
  }

  // ---- what an evaluation records

  /** The observer only marks targets as whole-tree, and marks every one that escapes. */
  ghost predicate ObservesSoundly(t: Tables, w: World, m: string, observe: Observe)
  {
    && (forall g :: |observe(g)| == |g|)
    && (forall g, i :: 0 <= i < |g| && i < |observe(g)| ==> Identify(observe(g)[i]) == Identify(g[i]))
    && (forall g :: Observed(t, w, m, observe(g)))
  }

  lemma {:induction false} SurvivingMembers(groups: seq<seq<Target>>, run: Run, observe: Observe, x: Target)
    requires x in SurvivingTargets(groups, run, observe)
    ensures exists g :: g in groups && run(g).Survived? && x in observe(g)
  {
    assert groups == [groups[0]] + groups[1..];
    if !(run(groups[0]).Survived? && x in observe(groups[0])) {
      SurvivingMembers(groups[1..], run, observe, x);
    }
  }

  /** The evaluation of a mutant asks to record only what is so: the killing group after a kill, all that
      was executed after a survival, and after an undecided evaluation nothing. */
  lemma EvaluationIsJustified(t: Tables, w: World, m: Mutant, groups: seq<seq<Target>>, run: Run, observe: Observe,
                              finding: FindingSeed)
    requires Faithful(run, KillerOf(w, m)) && ObservesSoundly(t, w, m.id, observe)
    ensures
      var v := Evaluate(groups, run, observe);
      && (v.KilledBy? ==> Justified(t, w, Kill(m, v.killers)))
      && (v.SurvivedAll? ==> Justified(t, w, Survival(m, v.executed, finding)))
  {
    hide Evaluate;
    var v := Evaluate(groups, run, observe);
    VerdictIsJustified(groups, run, observe);
    if v.KilledBy? {
      var g :| g in groups && run(g).Killed? && v.killers == observe(g);
      var x :| x in g && KillerOf(w, m)(x);
      var i :| 0 <= i < |g| && g[i] == x;
      assert observe(g)[i] in v.killers && w.kills(m.id, Identify(observe(g)[i]));
    }
    if v.SurvivedAll? {
      forall x | x in v.executed
        ensures !w.kills(m.id, Identify(x))
        ensures w.escapes(m.id, Identify(x)) ==> t.Wide(x)
      {
        SurvivingMembers(groups, run, observe, x);
        var g :| g in groups && run(g).Survived? && x in observe(g);
        var i :| 0 <= i < |observe(g)| && observe(g)[i] == x;
        assert g[i] in g && !KillerOf(w, m)(g[i]);
      }
    }
  }

  // ---- any sequence of runs

  ghost predicate StoreSound(o: Oracle, store: map<string, Record>)
  {
    forall id :: id in store ==> store[id].mutant == id && RecordSound(o, store[id])
  }

  /** One run: what it knows, what is so, what it asks to record, and the catalog it stores for. */
  datatype RunLog = RunLog(tables: Tables, world: World, provenance: string, entries: seq<Entry>, catalog: set<string>)

  function RecordedBy(run: RunLog, n: nat): map<string, Record>
    requires n <= |run.entries|
  {
    if n == 0 then map[] else Evidence.Recorded(run.tables, run.provenance, RecordedBy(run, n - 1), run.entries[n - 1])
  }

  function StoreAfter(store: map<string, Record>, run: RunLog): map<string, Record>
  {
    Stored(RecordedBy(run, |run.entries|), store, run.catalog)
  }

  function StoreAfterAll(store: map<string, Record>, runs: seq<RunLog>): map<string, Record>
  {
    if runs == [] then store else StoreAfter(StoreAfterAll(store, runs[..|runs| - 1]), runs[|runs| - 1])
  }

  ghost predicate Truthful(o: Oracle, run: RunLog)
  {
    Consistent(o, run.tables, run.world) &&
    forall i :: 0 <= i < |run.entries| ==> Justified(run.tables, run.world, run.entries[i])
  }

  lemma {:induction false} RecordedIsSound(o: Oracle, run: RunLog, n: nat)
    requires Truthful(o, run) && n <= |run.entries|
    ensures StoreSound(o, RecordedBy(run, n))
  {
    hide Consistent, Justified, RecordSound, ProofOf;
    if n > 0 {
      RecordedIsSound(o, run, n - 1);
      var e := run.entries[n - 1];
      if ProofOf(run.tables, e).Some? {
        RecordingIsSound(o, run.tables, run.world, e, run.provenance);
      }
    }
  }

  /** Over any sequence of runs, whatever was edited in between, the store stays sound: through new
      records, records carried forward and mutants that left the catalog. */
  lemma {:induction false} StoreStaysSound(o: Oracle, store: map<string, Record>, runs: seq<RunLog>)
    requires StoreSound(o, store) && forall i :: 0 <= i < |runs| ==> Truthful(o, runs[i])
    ensures StoreSound(o, StoreAfterAll(store, runs))
  {
    hide Truthful, RecordSound;
    if runs != [] {
      var front, last := runs[..|runs| - 1], runs[|runs| - 1];
      StoreStaysSound(o, store, front);
      RecordedIsSound(o, last, |last.entries|);
    }
  }

  // ---- reuse

  /** A reused kill is a kill today, by a target of the route. */
  lemma ReusedKillIsTrue(o: Oracle, t: Tables, w: World, m: Mutant, record: Record, r: Route)
    requires Consistent(o, t, w) && RecordSound(o, record) && record.mutant == m.id && KillReusable(t, record, r)
    ensures exists x :: x in r.reaching && KillerOf(w, m)(x)
  {
    hide GroupsOf, Consistent, KeyKills, Contained;
    var groups, killedBy := GroupsOf(r.reaching, t.batchKey), record.proof.killedBy;
    var g :| 0 <= g < |groups| && ContainsSet(t, groups[g], killedBy);
    var k :| k in killedBy && KeyKills(o, m.id, k);
    var i :| 0 <= i < |killedBy| && killedBy[i] == k;
    assert Evidence.Holds(t, groups[g], killedBy[i]);
    var j :| 0 <= j < |groups[g]| && Identify(groups[g][j]) == k.id && t.Matches(k.id, k);
    MatchedKeyDecides(o, t, w, m.id, k);
    GroupMembers(r.reaching, t.batchKey);
    assert groups[g] in groups && groups[g][j] in groups[g];
    assert groups[g][j] in r.reaching && KillerOf(w, m)(groups[g][j]);
  }

  /** A reused survival is a survival today: no target of the route kills. */
  lemma ReusedSurvivalIsTrue(o: Oracle, t: Tables, w: World, m: Mutant, record: Record, r: Route)
    requires Consistent(o, t, w) && RecordSound(o, record) && record.mutant == m.id
    requires record.proof.SurvivedProof? && VerdictReusable(t, m, record, r)
    ensures r.reaching != [] && forall x :: x in r.reaching ==> !KillerOf(w, m)(x)
  {
    hide Consistent, KeyKills, Contained;
    var exhausted := record.proof.exhausted;
    forall x | x in r.reaching ensures !KillerOf(w, m)(x) {
      var i :| 0 <= i < |r.reaching| && r.reaching[i] == x;
      assert Exhausted(t, exhausted, r.reaching[i]);
      var j :| 0 <= j < |exhausted| && exhausted[j].id == Identify(x) && t.Matches(Identify(x), exhausted[j]);
      assert exhausted[j] in exhausted;
      MatchedKeyDecides(o, t, w, m.id, exhausted[j]);
    }
  }

  /** A reused unreached finding is true today: nothing routes, and the package suite does not kill. */
  lemma ReusedUnreachedIsTrue(o: Oracle, t: Tables, w: World, m: Mutant, record: Record, r: Route)
    requires Consistent(o, t, w) && RecordSound(o, record) && record.mutant == m.id
    requires record.proof.UnreachedProof? && VerdictReusable(t, m, record, r)
    ensures Unrouted(r) && !SuiteKills(w, m.id, m.pkg)
  {
    MatchedSuiteDecides(o, t, w, m.id, record.proof.suite);
  }

  /** Reuse agrees with a fresh evaluation whose runs are conclusive, and with running every target: the
      store may be the result of any sequence of runs. */
  lemma ReuseAgreesWithFreshRun(o: Oracle, start: map<string, Record>, runs: seq<RunLog>, t: Tables, w: World, m: Mutant,
                                instrumented: seq<FileCoverage>, suites: map<string, Suite>,
                                probes: map<string, SuiteProbe>, run: Run, observe: Observe)
    requires StoreSound(o, start) && (forall i :: 0 <= i < |runs| ==> Truthful(o, runs[i])) && Consistent(o, t, w)
    requires CanonicalEvidence(t.targets) && Explained(m, t.targets, instrumented, KillerOf(w, m))
    requires Faithful(run, KillerOf(w, m))
    ensures
      var store := StoreAfterAll(start, runs);
      var r := FullRoute(m, t.targets, instrumented, suites, probes);
      var groups := GroupsOf(r.reaching, t.batchKey);
      m.id in store && Conclusive(groups, run) ==>
        var record, anew := store[m.id], Evaluate(groups, run, observe);
        && (KillReusable(t, record, r) ==> anew.KilledBy? && exists x :: x in t.targets && KillerOf(w, m)(x))
        && (VerdictReusable(t, m, record, r) && record.proof.SurvivedProof? ==>
             anew.SurvivedAll? && forall x :: x in t.targets ==> !KillerOf(w, m)(x))
        && (VerdictReusable(t, m, record, r) && record.proof.UnreachedProof? ==>
             !SuiteKills(w, m.id, m.pkg) && forall x :: x in t.targets ==> !KillerOf(w, m)(x))
  {
    hide FullRoute, GroupsOf, Evaluate, Explained, CanonicalEvidence, Faithful, Consistent, StoreAfterAll, Truthful,
      KillReusable, VerdictReusable, RecordSound;
    var r := FullRoute(m, t.targets, instrumented, suites, probes);
    var groups := GroupsOf(r.reaching, t.batchKey);
    if m.id !in StoreAfterAll(start, runs) || !Conclusive(groups, run) {
      return;
    }
    var record := StoreAfterAll(start, runs)[m.id];
    var kills := KillerOf(w, m);
    StoreStaysSound(o, start, runs);
    NoKillerIsLost(m, t.targets, instrumented, suites, probes, kills);
    GroupsDecide(r.reaching, t.batchKey, run, observe, kills);
    ConclusiveVerdict(groups, run, observe);
    if KillReusable(t, record, r) {
      ReusedKillIsTrue(o, t, w, m, record, r);
    }
    if VerdictReusable(t, m, record, r) && record.proof.SurvivedProof? {
      ReusedSurvivalIsTrue(o, t, w, m, record, r);
    }
    if VerdictReusable(t, m, record, r) && record.proof.UnreachedProof? {
      ReusedUnreachedIsTrue(o, t, w, m, record, r);
    }
  }

  ghost predicate Conclusive(groups: seq<seq<Target>>, run: Run)
  {
    forall g :: g in groups ==> run(g).Killed? || run(g).Survived?
  }

  lemma ConclusiveVerdict(groups: seq<seq<Target>>, run: Run, observe: Observe)
    requires Conclusive(groups, run)
    ensures
      var v := Evaluate(groups, run, observe);
      v.KilledBy? || v.SurvivedAll?
  {
    ClassIsOfAll(groups, run, observe);
  }
}
