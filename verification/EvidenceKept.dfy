/** What one run concludes, the next one finds: on unchanged tables and an unchanged route, a verdict is
    reused as it was, whether it was fresh or itself reused. */
module EvidenceKept {
  import opened Wrappers
  import opened Ordering
  import opened Coverage
  import opened Routing
  import opened RoutingSoundness
  import opened Groups
  import opened Evidence
  import opened EvidenceSoundness
  import opened Evaluation

  /** The observer changes nothing of a target but its mark. */
  ghost predicate Marks(observe: Observe)
  {
    && (forall g :: |observe(g)| == |g|)
    && (forall g: seq<Target>, i :: 0 <= i < |g| && i < |observe(g)| ==> observe(g)[i] == g[i].(wholeTree := observe(g)[i].wholeTree))
  }

  /** The target can be put on record, marked or not: it is named and measured, it passed its baseline, and
      it has a key of both kinds. */
  predicate Recordable(t: Tables, x: Target)
  {
    && Identify(x) != NOBODY && x.covered.Some? && Identify(x) in t.passed
    && t.Key(Identify(x)) != "" && t.WholeKey(Identify(x)) != ""
  }

  lemma MarkedIsKeyed(t: Tables, x: Target, y: Target)
    requires Recordable(t, x) && y == x.(wholeTree := y.wholeTree)
    ensures t.KeyOf(y).id == Identify(x) && t.KeyOf(y).key != "" && t.Matches(Identify(x), t.KeyOf(y))
  {
  }

  /** A kill by a recordable group is recorded, and found again. */
  lemma KillIsFound(t: Tables, m: Mutant, r: Route, g: seq<Target>, observe: Observe)
    requires Marks(observe) && (forall x :: x in r.reaching ==> Recordable(t, x))
    requires g in GroupsOf(r.reaching, t.batchKey)
    ensures ProofOf(t, Kill(m, observe(g))) == Some(KilledProof(KeysOf(t, observe(g))))
    ensures forall record: Record :: record.proof == KilledProof(KeysOf(t, observe(g))) ==> KillReusable(t, record, r)
  {
    hide GroupsOf, Recordable, ContainsSet;
    var killers, groups := observe(g), GroupsOf(r.reaching, t.batchKey);
    GroupMembers(r.reaching, t.batchKey);
    GroupsPartition(r.reaching, t.batchKey);
    KeyedNotEmpty(groups, t.batchKey);
    var n :| 0 <= n < |groups| && groups[n] == g;
    forall i | 0 <= i < |g|
      ensures Identify(killers[i]) != NOBODY && Identify(killers[i]) in t.passed && t.KeyOf(killers[i]).key != ""
      ensures Evidence.Holds(t, g, t.KeyOf(killers[i]))
    {
      assert g[i] in g && g[i] in r.reaching;
      RecordableParts(t, g[i]);
      MarkedIsKeyed(t, g[i], killers[i]);
      assert Identify(g[i]) == t.KeyOf(killers[i]).id;
    }
    GroupContains(t, g, KeysOf(t, killers));
    assert ContainsSet(t, groups[n], KeysOf(t, killers));
  }

  lemma GroupContains(t: Tables, g: seq<Target>, keys: seq<TargetKey>)
    requires |keys| <= |g| && forall i :: 0 <= i < |keys| ==> Evidence.Holds(t, g, keys[i])
    ensures ContainsSet(t, g, keys)
  {
  }

  lemma RecordableParts(t: Tables, x: Target)
    requires Recordable(t, x)
    ensures Identify(x) != NOBODY && x.covered.Some? && Identify(x) in t.passed
  {
  }

  /** A survival of recordable targets is recorded, and found again. */
  lemma SurvivalIsFound(t: Tables, m: Mutant, r: Route, run: Run, observe: Observe, finding: FindingSeed)
    requires Marks(observe) && (forall x :: x in r.reaching ==> Recordable(t, x)) && r.reaching != []
    requires forall g :: g in GroupsOf(r.reaching, t.batchKey) ==> run(g).Survived?
    requires finding.kind != "" && finding.summary != ""
    ensures
      var executed := SurvivingTargets(GroupsOf(r.reaching, t.batchKey), run, observe);
      && executed != []
      && ProofOf(t, Survival(m, executed, finding)) == Some(SurvivedProof(KeysOf(t, executed), finding))
      && (forall record: Record :: record.proof == SurvivedProof(KeysOf(t, executed), finding) ==> VerdictReusable(t, m, record, r))
  {
    hide GroupsOf, Recordable, SurvivingTargets;
    var groups := GroupsOf(r.reaching, t.batchKey);
    var executed := SurvivingTargets(groups, run, observe);
    GroupMembers(r.reaching, t.batchKey);
    forall i | 0 <= i < |executed|
      ensures executed[i].covered.Some? && Identify(executed[i]) in t.passed && t.KeyOf(executed[i]).key != ""
    {
      SurvivingMembers(groups, run, observe, executed[i]);
      var g :| g in groups && run(g).Survived? && executed[i] in observe(g);
      var j :| 0 <= j < |observe(g)| && observe(g)[j] == executed[i];
      assert g[j] in g && g[j] in r.reaching;
      RecordableParts(t, g[j]);
      MarkedIsKeyed(t, g[j], executed[i]);
    }
    forall i | 0 <= i < |r.reaching| ensures Exhausted(t, KeysOf(t, executed), r.reaching[i]) {
      ReachingIsExecuted(t, r, run, observe, r.reaching[i]);
    }
    assert Exhausted(t, KeysOf(t, executed), r.reaching[0]);
  }

  lemma ReachingIsExecuted(t: Tables, r: Route, run: Run, observe: Observe, x: Target)
    requires Marks(observe) && x in r.reaching && Recordable(t, x)
    requires forall g :: g in GroupsOf(r.reaching, t.batchKey) ==> run(g).Survived?
    ensures Exhausted(t, KeysOf(t, SurvivingTargets(GroupsOf(r.reaching, t.batchKey), run, observe)), x)
  {
    hide GroupsOf, Recordable, SurvivingTargets;
    var groups := GroupsOf(r.reaching, t.batchKey);
    var executed := SurvivingTargets(groups, run, observe);
    GroupMembers(r.reaching, t.batchKey);
    var g :| g in groups && x in g;
    var j :| 0 <= j < |g| && g[j] == x;
    var y := observe(g)[j];
    ExecutedMember(groups, run, observe, g, y);
    var i :| 0 <= i < |executed| && executed[i] == y;
    RecordableParts(t, x);
    MarkedIsKeyed(t, x, y);
    assert KeysOf(t, executed)[i] == t.KeyOf(y);
  }

  lemma {:induction false} ExecutedMember(groups: seq<seq<Target>>, run: Run, observe: Observe, g: seq<Target>, y: Target)
    requires g in groups && run(g).Survived? && y in observe(g)
    ensures y in SurvivingTargets(groups, run, observe)
  {
    assert groups == [groups[0]] + groups[1..];
    if g != groups[0] {
      ExecutedMember(groups[1..], run, observe, g, y);
    }
  }

  // ---- what a run leaves in the store

  lemma {:induction false} RecordedMisses(run: RunLog, n: nat, id: string)
    requires n <= |run.entries| && forall i :: 0 <= i < n ==> run.entries[i].mutant.id != id
    ensures id !in RecordedBy(run, n)
  {
    hide ProofOf;
    if n > 0 {
      RecordedMisses(run, n - 1, id);
    }
  }

  lemma {:induction false} RecordedHits(run: RunLog, n: nat, k: nat)
    requires k < n <= |run.entries| && ProofOf(run.tables, run.entries[k]).Some?
    requires forall i :: k < i < n ==> run.entries[i].mutant.id != run.entries[k].mutant.id
    ensures
      var e := run.entries[k];
      && e.mutant.id in RecordedBy(run, n)
      && RecordedBy(run, n)[e.mutant.id] ==
           Record(e.mutant.id, e.mutant.path, e.mutant.pkg, run.provenance, ProofOf(run.tables, e).value)
  {
    hide ProofOf;
    if n > k + 1 {
      RecordedHits(run, n - 1, k);
    }
  }

  lemma EntryIsOfMutant(t: Tables, records: map<string, Record>, trial: Trial)
    ensures EntryIn(t, records, trial).Some? ==> EntryIn(t, records, trial).value.mutant == trial.mutant
  {
    hide FullRoute, EvaluateSeed, KillReusable, VerdictReusable, SurvivalSummary;
  }

  lemma {:induction false} EntriesMiss(t: Tables, records: map<string, Record>, trials: seq<Trial>, id: string)
    requires forall i :: 0 <= i < |trials| ==> trials[i].mutant.id != id
    ensures forall i :: 0 <= i < |EntriesOf(t, records, trials)| ==> EntriesOf(t, records, trials)[i].mutant.id != id
  {
    hide EntryIn;
    if trials != [] {
      EntryIsOfMutant(t, records, trials[0]);
      EntriesMiss(t, records, trials[1..], id);
    }
  }

  ghost predicate OnlyTrial(trials: seq<Trial>, k: nat)
  {
    k < |trials| && forall i :: 0 <= i < |trials| && i != k ==> trials[i].mutant.id != trials[k].mutant.id
  }

  ghost predicate NoneOf(entries: seq<Entry>, id: string)
  {
    forall i :: 0 <= i < |entries| ==> entries[i].mutant.id != id
  }

  /** The entry of a mutant tried once is in the log, once, when there is one. */
  lemma {:induction false} EntriesHold(t: Tables, records: map<string, Record>, trials: seq<Trial>, k: nat)
    returns (front: seq<Entry>, back: seq<Entry>)
    requires OnlyTrial(trials, k)
    ensures NoneOf(front, trials[k].mutant.id) && NoneOf(back, trials[k].mutant.id)
    ensures
      var entry := EntryIn(t, records, trials[k]);
      EntriesOf(t, records, trials) == front + (if entry.Some? then [entry.value] else []) + back
    decreases k
  {
    hide EntryIn;
    var first := EntryIn(t, records, trials[0]);
    var head := if first.Some? then [first.value] else [];
    EntryIsOfMutant(t, records, trials[0]);
    if k == 0 {
      EntriesMiss(t, records, trials[1..], trials[0].mutant.id);
      front, back := [], EntriesOf(t, records, trials[1..]);
    } else {
      assert trials[1..][k - 1] == trials[k] && trials[0].mutant.id != trials[k].mutant.id;
      front, back := EntriesHold(t, records, trials[1..], k - 1);
      var entry := EntryIn(t, records, trials[k]);
      assert head + (front + (if entry.Some? then [entry.value] else []) + back) ==
             head + front + (if entry.Some? then [entry.value] else []) + back;
      front := head + front;
    }
  }

  /** The record of a mutant of the catalog, tried once: the new one when there is one to record, and the
      earlier one otherwise. */
  lemma StoredFor(before: map<string, Record>, c: Campaign, k: nat)
    requires OnlyTrial(c.trials, k) && c.trials[k].mutant.id in c.catalog
    ensures
      var m := c.trials[k].mutant;
      var entry := EntryIn(c.tables, before, c.trials[k]);
      var after := After(before, c);
      if entry.Some? && ProofOf(c.tables, entry.value).Some?
      then m.id in after && after[m.id] == Record(m.id, m.path, m.pkg, c.provenance, ProofOf(c.tables, entry.value).value)
      else (m.id in after <==> m.id in before) && (m.id in after ==> after[m.id] == before[m.id])
  {
    hide EntryIn, ProofOf, EntriesOf;
    var log := RunLog(c.tables, c.world, c.provenance, EntriesOf(c.tables, before, c.trials), c.catalog);
    var m := c.trials[k].mutant;
    var entry := EntryIn(c.tables, before, c.trials[k]);
    EntryIsOfMutant(c.tables, before, c.trials[k]);
    var front, back := EntriesHold(c.tables, before, c.trials, k);
    if entry.None? {
      assert log.entries == front + back;
      RecordedMisses(log, |log.entries|, m.id);
    } else {
      assert log.entries[|front|] == entry.value;
      assert forall i :: |front| < i < |log.entries| ==> log.entries[i] == back[i - |front| - 1];
      if ProofOf(c.tables, entry.value).Some? {
        RecordedHits(log, |log.entries|, |front|);
      } else {
        assert forall i :: 0 <= i < |front| ==> log.entries[i] == front[i];
        RecordedMisses(log, |front|, m.id);
        NothingLater(log, |front|, |log.entries|, m.id);
      }
    }
  }

  /** An entry that cannot be recorded leaves nothing behind. */
  lemma {:induction false} NothingLater(log: RunLog, n: nat, end: nat, id: string)
    requires n < end <= |log.entries| && id !in RecordedBy(log, n) && ProofOf(log.tables, log.entries[n]).None?
    requires forall i :: n < i < end ==> log.entries[i].mutant.id != id
    ensures id !in RecordedBy(log, end)
    decreases end
  {
    hide ProofOf;
    if end > n + 1 {
      NothingLater(log, n, end - 1, id);
    }
  }

  function After(before: map<string, Record>, c: Campaign): map<string, Record>
  {
    StoreAfter(before, RunLog(c.tables, c.world, c.provenance, EntriesOf(c.tables, before, c.trials), c.catalog))
  }

  lemma AfterIsNext(start: map<string, Record>, campaigns: seq<Campaign>, c: Campaign)
    ensures StoreAt(start, campaigns + [c]) == After(StoreAt(start, campaigns), c)
  {
    assert (campaigns + [c])[..|campaigns|] == campaigns;
  }

  /** The verdict of a trial, as the next run has to give it without running anything. */
  ghost predicate Kept(s: Seed, next: Seed, provenance: string)
  {
    match s
    case ReusedKill(_) => next == s
    case ReusedFinding(_, _) => next == s
    case Evaluated(v) =>
      match v
      case Unreached => next == s
      case AllDischarged => next == s
      case ByGroups(KilledBy(_)) => next == ReusedKill(provenance)
      case ByGroups(SurvivedAll(_)) =>
        next.ReusedFinding? && next.finding.kind == "surviving-mutant" && next.provenance == provenance
      case BySuite(outcome) =>
        outcome.Survived? ==> next.ReusedFinding? && next.finding.kind == "unreached-mutant" && next.provenance == provenance
      case _ => true
  }

  /** A run that knows the same and routes the mutant the same way gives the verdict of the run before, from
      its record: the same kill or finding, under the provenance of the run that found it. */
  lemma VerdictIsKept(before: map<string, Record>, c: Campaign, k: nat, again: Trial)
    requires OnlyTrial(c.trials, k) && c.trials[k].mutant.id in c.catalog && again.mutant == c.trials[k].mutant
    requires RouteIn(c.tables, again) == RouteIn(c.tables, c.trials[k]) && Marks(c.trials[k].observe)
    requires forall x :: x in RouteIn(c.tables, c.trials[k]).reaching ==> Recordable(c.tables, x)
    requires c.tables.SuiteKeyNow(again.mutant.pkg) != "" && c.tables.WholeSuiteKey(again.mutant.pkg) != ""
    ensures Kept(SeedIn(c.tables, before, c.trials[k]), SeedIn(c.tables, After(before, c), again), c.provenance)
  {
    hide RouteIn, GroupsOf, EvaluateSeed, KillReusable, VerdictReusable, Recordable, After, ProofOf, SurvivalSummary;
    var t, trial, m := c.tables, c.trials[k], again.mutant;
    var r := RouteIn(t, trial);
    var s, v := SeedIn(t, before, trial), EvaluateSeed(r, t.batchKey, trial.run, trial.observe, trial.suite.outcome);
    StoredFor(before, c, k);
    UnreachedIsOfRoute(r, t.batchKey, trial, again);
    var after := After(before, c);
    var u := EvaluateSeed(r, t.batchKey, again.run, again.observe, again.suite.outcome);
    assert s == SeedOf(t, before, m, r, trial.run, trial.observe, trial.suite);
    assert SeedIn(t, after, again) == SeedOf(t, after, m, r, again.run, again.observe, again.suite);
    if s.Evaluated? {
      assert s.verdict == v && EntryIn(t, before, trial) == Learnt(m, r, v, trial.suite);
      FreshIsFound(c, r, trial, v, after);
      OnlyKillsAreKills(t, r);
      if v.ByGroups? && v.verdict.KilledBy? {
        assert SeedIn(t, after, again) == ReusedKill(c.provenance);
      } else if v.AllDischarged? {
        assert u.AllDischarged?;
        assert !(m.id in after && KillReusable(t, after[m.id], r));
      } else if v.Unreached? {
        assert !KillReusable(t, after[m.id], r);
      } else if v.ByGroups? && v.verdict.SurvivedAll? {
        assert !u.Unreached? && !KillReusable(t, after[m.id], r);
      } else if v.BySuite? && v.outcome.Survived? {
        assert !u.Unreached? && !KillReusable(t, after[m.id], r);
      }
    } else {
      assert EntryIn(t, before, trial).None?;
    }
  }

  lemma OnlyKillsAreKills(t: Tables, r: Route)
    ensures forall record: Record :: KillReusable(t, record, r) ==> record.proof.KilledProof?
  {
  }

  /** Being unreached, or discharged, is a matter of the route alone. */
  lemma UnreachedIsOfRoute(r: Route, key: Target -> string, a: Trial, b: Trial)
    ensures
      var v := EvaluateSeed(r, key, a.run, a.observe, a.suite.outcome);
      var u := EvaluateSeed(r, key, b.run, b.observe, b.suite.outcome);
      (v.Unreached? <==> u.Unreached?) && (v.AllDischarged? <==> u.AllDischarged?)
  {
    hide GroupsOf, Evaluate;
  }

  /** The record of a fresh verdict answers for the route it was found on. */
  lemma FreshIsFound(c: Campaign, r: Route, trial: Trial, v: SeedVerdict, after: map<string, Record>)
    requires v == EvaluateSeed(r, c.tables.batchKey, trial.run, trial.observe, trial.suite.outcome)
    requires Marks(trial.observe) && forall x :: x in r.reaching ==> Recordable(c.tables, x)
    requires c.tables.SuiteKeyNow(trial.mutant.pkg) != "" && c.tables.WholeSuiteKey(trial.mutant.pkg) != ""
    requires
      var m := trial.mutant;
      var entry := Learnt(m, r, v, trial.suite);
      entry.Some? && ProofOf(c.tables, entry.value).Some? ==>
        m.id in after && after[m.id] == Record(m.id, m.path, m.pkg, c.provenance, ProofOf(c.tables, entry.value).value)
    ensures v.ByGroups? && v.verdict.KilledBy? ==>
      trial.mutant.id in after && after[trial.mutant.id].provenance == c.provenance && KillReusable(c.tables, after[trial.mutant.id], r)
    ensures v.ByGroups? && v.verdict.SurvivedAll? ==> Answered(c, r, trial.mutant, after, "surviving-mutant")
    ensures v.BySuite? && v.outcome.Survived? ==> Answered(c, r, trial.mutant, after, "unreached-mutant")
    ensures v.Unreached? ==> trial.mutant.id in after && after[trial.mutant.id].proof.UnreachedProof?
  {
    hide GroupsOf, Evaluate, Recordable, KillReusable, VerdictReusable, SurvivalSummary, SurvivingTargets;
    var t, m := c.tables, trial.mutant;
    var groups := GroupsOf(r.reaching, t.batchKey);
    VerdictIsJustified(groups, trial.run, trial.observe);
    if v.ByGroups? && v.verdict.KilledBy? {
      var g :| g in groups && trial.run(g).Killed? && v.verdict.killers == trial.observe(g);
      KillIsFound(t, m, r, g, trial.observe);
    }
    if v.ByGroups? && v.verdict.SurvivedAll? {
      var finding := FindingSeed(SURVIVING, SurvivalSummary(r.discharged));
      SurvivalIsFound(t, m, r, trial.run, trial.observe, finding);
    }
    if v.Unreached? || (v.BySuite? && v.outcome.Survived?) {
      SuiteIsFound(t, m, r, Learnt(m, r, v, trial.suite).value.whole, Learnt(m, r, v, trial.suite).value.finding);
    }
  }

  ghost predicate Answered(c: Campaign, r: Route, m: Mutant, after: map<string, Record>, kind: string)
  {
    && m.id in after && after[m.id].provenance == c.provenance && !after[m.id].proof.KilledProof?
    && after[m.id].proof.finding.kind == kind && VerdictReusable(c.tables, m, after[m.id], r)
  }

  lemma SuiteIsFound(t: Tables, m: Mutant, r: Route, whole: bool, finding: FindingSeed)
    requires Unrouted(r) && finding.kind != "" && finding.summary != ""
    requires t.SuiteKeyNow(m.pkg) != "" && t.WholeSuiteKey(m.pkg) != ""
    ensures ProofOf(t, SuiteRun(m, whole, finding)) == Some(UnreachedProof(t.SuiteKeyOf(m.pkg, whole), finding))
    ensures forall record: Record :: record.proof == UnreachedProof(t.SuiteKeyOf(m.pkg, whole), finding) ==> VerdictReusable(t, m, record, r)
  {
  }
}
