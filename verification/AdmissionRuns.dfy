/** Every interleaving of threads in beginNative, releases, and commands that dirty the cache
    (internal/assure/buildcache.go).  The admission lock is explicit, because it is held across the
    drain; the mutex is implicit in the sections being single steps. */
module AdmissionRuns {
  import opened Wrappers
  import opened Admission

  datatype Once = NotSeeded | Seeding(read: nat, seeder: nat) | Seeded

  datatype Place =
    | SeedingNow
    | AfterSeed
    | WantsAdmission
    | Checking
    | Draining
    | Executing

  datatype Sys = Sys(gate: Gate, once: Once, admission: Option<nat>, threads: map<nat, Place>)

  datatype Step =
    | SeedBegins(thread: nat)
    | SeedEnds(thread: nat, ok: bool, now: int)
    | SeedAnswers(thread: nat)
    | Locks(thread: nat)
    | Checks(thread: nat, now: int)
    | Drained(thread: nat, answers: Answers)
    | Releases(thread: nat)
    | Dirties(thread: nat)

  function Init(): Sys
  {
    Sys(Gate(0, 0, false, false, None, 0), NotSeeded, None, map[])
  }

  predicate At(s: Sys, t: nat, p: Place)
  {
    t in s.threads && s.threads[t] == p
  }

  predicate Enabled(s: Sys, step: Step)
  {
    var t := step.thread;
    match step
    case SeedBegins(_) => t !in s.threads && s.once.NotSeeded?
    case SeedEnds(_, _, _) => s.once.Seeding? && s.once.seeder == t && At(s, t, SeedingNow)
    case SeedAnswers(_) => s.once.Seeded? && (t !in s.threads || s.threads[t].AfterSeed?)
    case Locks(_) => At(s, t, WantsAdmission) && s.admission.None?
    case Checks(_, _) => At(s, t, Checking)
    case Drained(_, _) => At(s, t, Draining) && s.gate.executions == 0
    case Releases(_) => At(s, t, Executing)
    case Dirties(_) => true
  }

  /** Where a verdict leaves the thread that holds the admission lock. */
  function Settle(s: Sys, t: nat, g: Gate, v: Verdict): Sys
  {
    match v
    case Refused => s.(gate := g, admission := None, threads := s.threads - {t})
    case Drain => s.(gate := g, threads := s.threads[t := Draining])
    case Admitted => s.(gate := g, admission := None, threads := s.threads[t := Executing])
  }

  function Apply(limits: Limits, s: Sys, step: Step): Sys
    requires Enabled(s, step)
  {
    var t := step.thread;
    match step
    case SeedBegins(_) => s.(once := Seeding(s.gate.generation, t), threads := s.threads[t := SeedingNow])
    case SeedEnds(_, ok, now) =>
      s.(gate := SeedStep(s.gate, s.once.read, ok, now), once := Seeded, threads := s.threads[t := AfterSeed])
    case SeedAnswers(_) =>
      if s.gate.seedFailed || s.gate.disabled then s.(threads := s.threads - {t})
      else s.(threads := s.threads[t := WantsAdmission])
    case Locks(_) => s.(admission := Some(t), threads := s.threads[t := Checking])
    case Checks(_, now) => var (g, v) := CheckStep(limits, s.gate, now); Settle(s, t, g, v)
    case Drained(_, answers) => var (g, v) := AfterDrainStep(limits, s.gate, answers); Settle(s, t, g, v)
    case Releases(_) =>
      s.(gate := s.gate.(executions := s.gate.executions - 1), threads := s.threads - {t})
    case Dirties(_) => s.(gate := DirtyStep(s.gate))
  }

  /** The step changes the shared directory: a refresh, or a collection from beginNative. */
  predicate ChangesDirectory(limits: Limits, s: Sys, step: Step)
  {
    && step.Drained?
    && (s.gate.seededGeneration != s.gate.generation ||
        Collects(limits, Refreshed(s.gate, step.answers), false, step.answers.collectedAt))
  }

  function Outstanding(s: Sys): set<nat>
  {
    set t | t in s.threads && s.threads[t].Executing?
  }

  ghost predicate Inv(s: Sys)
  {
    && s.gate.executions == |Outstanding(s)|
    && (forall t: nat :: At(s, t, Checking) || At(s, t, Draining) ==> s.admission == Some(t))
    && (s.admission.Some? ==> At(s, s.admission.value, Checking) || At(s, s.admission.value, Draining))
    && (match s.once
        case NotSeeded => s.threads == map[] && !s.gate.seedFailed
        case Seeding(_, seeder) => s.threads == map[seeder := SeedingNow] && !s.gate.seedFailed
        case Seeded => forall t :: t in s.threads ==> !s.threads[t].SeedingNow?)
    && (s.gate.seedFailed ==> forall t :: t in s.threads ==> s.threads[t].AfterSeed?)
  }

  lemma OutstandingGrows(s: Sys, d: Sys, t: nat)
    requires t !in Outstanding(s) && d.threads == s.threads[t := Executing]
    ensures |Outstanding(d)| == |Outstanding(s)| + 1
  {
    assert Outstanding(d) == Outstanding(s) + {t};
  }

  lemma OutstandingShrinks(s: Sys, d: Sys, t: nat)
    requires t in Outstanding(s) && d.threads == s.threads - {t}
    ensures |Outstanding(d)| == |Outstanding(s)| - 1
  {
    assert Outstanding(d) == Outstanding(s) - {t};
  }

  lemma OutstandingStays(s: Sys, d: Sys, t: nat, p: Place)
    requires t !in Outstanding(s) && !p.Executing?
    requires d.threads == s.threads[t := p] || d.threads == s.threads - {t}
    ensures Outstanding(d) == Outstanding(s)
  {
  }

  lemma StepKeeps(limits: Limits, s: Sys, step: Step)
    requires Inv(s) && Enabled(s, step)
    ensures Inv(Apply(limits, s, step))
  {
    var d := Apply(limits, s, step);
    var t := step.thread;
    match step {
      case SeedBegins(_) =>
        OutstandingStays(s, d, t, SeedingNow);
      case SeedEnds(_, _, _) => OutstandingStays(s, d, t, AfterSeed);
      case SeedAnswers(_) => OutstandingStays(s, d, t, WantsAdmission);
      case Locks(_) => OutstandingStays(s, d, t, Checking);
      case Checks(_, now) =>
        if CheckStep(limits, s.gate, now).1.Admitted? { OutstandingGrows(s, d, t); }
        else { OutstandingStays(s, d, t, Draining); }
      case Drained(_, answers) =>
        if AfterDrainStep(limits, s.gate, answers).1.Admitted? { OutstandingGrows(s, d, t); }
        else { OutstandingStays(s, d, t, Draining); }
      case Releases(_) => OutstandingShrinks(s, d, t);
      case Dirties(_) => assert Outstanding(d) == Outstanding(s);
    }
  }

  ghost predicate IsRun(limits: Limits, run: seq<Sys>, steps: seq<Step>)
  {
    && |run| == |steps| + 1 && run[0] == Init()
    && forall i :: 0 <= i < |steps| ==> Enabled(run[i], steps[i]) && run[i + 1] == Apply(limits, run[i], steps[i])
  }

  lemma {:induction false} RunKeeps(limits: Limits, run: seq<Sys>, steps: seq<Step>, n: nat)
    requires IsRun(limits, run, steps) && n <= |steps|
    ensures Inv(run[n])
  {
    if n > 0 {
      RunKeeps(limits, run, steps, n - 1);
      StepKeeps(limits, run[n - 1], steps[n - 1]);
    }
  }

  /** The directory is refreshed or collected only while no admitted execution is outstanding. */
  lemma ChangesOnlyWhenDrained(limits: Limits, run: seq<Sys>, steps: seq<Step>, n: nat)
    requires IsRun(limits, run, steps) && n < |steps| && ChangesDirectory(limits, run[n], steps[n])
    ensures forall t :: t in run[n].threads ==> !run[n].threads[t].Executing?
  {
    RunKeeps(limits, run, steps, n);
    assert Outstanding(run[n]) == {};
    forall t | t in run[n].threads ensures !run[n].threads[t].Executing? {
      assert t !in Outstanding(run[n]);
    }
  }

  /** Seeding, too, happens before anything was ever admitted. */
  lemma SeedsBeforeAdmission(limits: Limits, run: seq<Sys>, steps: seq<Step>, n: nat)
    requires IsRun(limits, run, steps) && n <= |steps| && run[n].once.Seeding?
    ensures Outstanding(run[n]) == {} && run[n].admission.None?
  {
    RunKeeps(limits, run, steps, n);
  }

  /** A thread starts executing only against an enabled projection of the current generation. */
  lemma AdmitsCurrentGeneration(limits: Limits, run: seq<Sys>, steps: seq<Step>, n: nat, t: nat)
    requires IsRun(limits, run, steps) && n < |steps|
    requires t !in Outstanding(run[n]) && t in Outstanding(run[n + 1])
    ensures !run[n].gate.disabled && !run[n + 1].gate.disabled && !run[n + 1].gate.seedFailed
    ensures run[n + 1].gate.seededGeneration == run[n + 1].gate.generation
  {
    RunKeeps(limits, run, steps, n);
    RunKeeps(limits, run, steps, n + 1);
  }

  lemma {:induction false} DisabledStays(limits: Limits, run: seq<Sys>, steps: seq<Step>, n: nat, m: nat)
    requires IsRun(limits, run, steps) && n <= m <= |steps| && run[n].gate.disabled
    ensures run[m].gate.disabled
  {
    if n < m {
      DisabledStays(limits, run, steps, n, m - 1);
    }
  }

  /** Once disabled, nothing is admitted again. */
  lemma DisabledAdmitsNothing(limits: Limits, run: seq<Sys>, steps: seq<Step>, n: nat, m: nat, t: nat)
    requires IsRun(limits, run, steps) && n <= m < |steps| && run[n].gate.disabled
    requires t in Outstanding(run[m + 1])
    ensures t in Outstanding(run[m])
  {
    DisabledStays(limits, run, steps, n, m);
    if t !in Outstanding(run[m]) {
      AdmitsCurrentGeneration(limits, run, steps, m, t);
    }
  }

  // ---- what a thread is told, and when

  /** Before the drain: a disabled projection refuses; one that is stale, or due for a collection, drains;
      any other admits at once. */
  lemma ChecksExactly(limits: Limits, run: seq<Sys>, steps: seq<Step>, n: nat)
    requires IsRun(limits, run, steps) && n < |steps| && steps[n].Checks?
    ensures
      var t, now, g := steps[n].thread, steps[n].now, run[n].gate;
      var due := limits.maxBytes > 0 && (g.lastCollect == None || now - g.lastCollect.value >= limits.interval);
      && (t !in run[n + 1].threads <==> g.disabled)
      && (At(run[n + 1], t, Draining) <==> !g.disabled && (g.seededGeneration != g.generation || due))
      && (At(run[n + 1], t, Executing) <==> !g.disabled && g.seededGeneration == g.generation && !due)
  {
  }

  /** After the drain: a refresh when stale, then a collection when due since the last collection, refresh or
      seeding; a failure of either disables the projection and refuses, and nothing else does. */
  lemma DrainedExactly(limits: Limits, run: seq<Sys>, steps: seq<Step>, n: nat)
    requires IsRun(limits, run, steps) && n < |steps| && steps[n].Drained?
    ensures
      var t, a, g, h := steps[n].thread, steps[n].answers, run[n].gate, run[n + 1].gate;
      var stale := g.seededGeneration != g.generation;
      var last := if stale then Some(a.refreshedAt) else g.lastCollect;
      var collects := !g.disabled && (stale ==> a.refreshOk) && limits.maxBytes > 0 &&
                      (last == None || a.collectedAt - last.value >= limits.interval);
      && (h.disabled <==> g.disabled || (stale && !a.refreshOk) || (collects && !a.collectOk))
      && (if h.disabled then t !in run[n + 1].threads else At(run[n + 1], t, Executing))
      && (!h.disabled ==> h.seededGeneration == h.generation == g.generation)
      && (h.lastCollect == if collects then Some(a.collectedAt) else if stale && a.refreshOk then Some(a.refreshedAt) else g.lastCollect)
  {
    RunKeeps(limits, run, steps, n);
  }

  /** A collection from beginNative that fails, or a refresh that fails, is the end: nothing is admitted by
      that step or any later one. */
  lemma FailureAdmitsNothing(limits: Limits, run: seq<Sys>, steps: seq<Step>, n: nat, m: nat, t: nat)
    requires IsRun(limits, run, steps) && n <= m < |steps| && steps[n].Drained?
    requires
      var g, a := run[n].gate, steps[n].answers;
      (g.seededGeneration != g.generation && !a.refreshOk) ||
      (Collects(limits, Refreshed(g, a), false, a.collectedAt) && !a.collectOk)
    requires t in Outstanding(run[m + 1])
    ensures run[n + 1].gate.disabled && t in Outstanding(run[m])
  {
    DrainedExactly(limits, run, steps, n);
    if n < m {
      DisabledAdmitsNothing(limits, run, steps, n + 1, m, t);
    } else if t !in Outstanding(run[m]) {
      AdmitsCurrentGeneration(limits, run, steps, m, t);
    }
  }

  // ---- what an admitted execution sees

  /** How many commands dirtied the cache before step `n`. */
  function Dirtied(steps: seq<Step>, n: nat): nat
    requires n <= |steps|
  {
    if n == 0 then 0 else Dirtied(steps, n - 1) + (if steps[n - 1].Dirties? then 1 else 0)
  }

  /** The step begins to read the cache into the directory: the seeding, or a refresh that succeeds. */
  predicate Reads(run: seq<Sys>, steps: seq<Step>, j: nat)
    requires |run| == |steps| + 1 && j < |steps|
  {
    steps[j].SeedBegins? || (steps[j].Drained? && run[j].gate.seededGeneration != run[j].gate.generation && steps[j].answers.refreshOk)
  }

  /** The directory holds the cache as it was when some step read it. */
  ghost predicate ReadAt(run: seq<Sys>, steps: seq<Step>, n: nat, generation: nat)
    requires |run| == |steps| + 1 && n <= |steps|
  {
    exists j: nat :: j < n && Reads(run, steps, j) && Dirtied(steps, j) == generation
  }

  lemma {:induction false} SeededWhenRead(limits: Limits, run: seq<Sys>, steps: seq<Step>, n: nat)
    requires IsRun(limits, run, steps) && n <= |steps|
    ensures run[n].gate.generation == Dirtied(steps, n)
    ensures run[n].once.Seeding? ==> ReadAt(run, steps, n, run[n].once.read)
    ensures run[n].once.Seeded? && !run[n].gate.seedFailed ==> ReadAt(run, steps, n, run[n].gate.seededGeneration)
  {
    if n > 0 {
      SeededWhenRead(limits, run, steps, n - 1);
      RunKeeps(limits, run, steps, n - 1);
      var s, step := run[n - 1], steps[n - 1];
      assert Enabled(s, step) && run[n] == Apply(limits, s, step);
      forall g: nat | ReadAt(run, steps, n - 1, g) ensures ReadAt(run, steps, n, g) {
        var j: nat :| j < n - 1 && Reads(run, steps, j) && Dirtied(steps, j) == g;
      }
      if Reads(run, steps, n - 1) {
        assert ReadAt(run, steps, n, Dirtied(steps, n - 1));
      }
    }
  }

  lemma {:induction false} DirtiedGrows(steps: seq<Step>, j: nat, n: nat)
    requires j <= n <= |steps|
    ensures Dirtied(steps, j) <= Dirtied(steps, n)
    ensures Dirtied(steps, j) == Dirtied(steps, n) ==> forall k :: j <= k < n ==> !steps[k].Dirties?
  {
    if j < n {
      DirtiedGrows(steps, j, n - 1);
    }
  }

  /** An execution starts only against a directory that was read after every command that dirtied the cache:
      since that reading no command has. */
  lemma AdmitsWhatWasRead(limits: Limits, run: seq<Sys>, steps: seq<Step>, n: nat, t: nat) returns (j: nat)
    requires IsRun(limits, run, steps) && n < |steps|
    requires t !in Outstanding(run[n]) && t in Outstanding(run[n + 1])
    ensures j <= n && Reads(run, steps, j) && forall k :: j <= k <= n ==> !steps[k].Dirties?
  {
    AdmitsCurrentGeneration(limits, run, steps, n, t);
    SeededWhenRead(limits, run, steps, n + 1);
    RunKeeps(limits, run, steps, n + 1);
    var g := run[n + 1].gate.seededGeneration;
    assert run[n + 1].once.Seeded?;
    j :| j < n + 1 && Reads(run, steps, j) && Dirtied(steps, j) == g;
    DirtiedGrows(steps, j, n + 1);
  }

  /** No deadlock: while anybody is inside beginNative or executing, somebody can take a step. */
  lemma SomebodyCanStep(limits: Limits, run: seq<Sys>, steps: seq<Step>, n: nat) returns (step: Step)
    requires IsRun(limits, run, steps) && n <= |steps| && run[n].threads != map[]
    ensures Enabled(run[n], step) && step.thread in run[n].threads && !step.Dirties?
  {
    RunKeeps(limits, run, steps, n);
    var s := run[n];
    if s.admission.Some? {
      var t := s.admission.value;
      if At(s, t, Checking) {
        step := Checks(t, 0);
      } else if s.gate.executions == 0 {
        step := Drained(t, Answers(true, 0, true, 0));
      } else {
        var u :| u in Outstanding(s);
        step := Releases(u);
      }
    } else {
      var t :| t in s.threads;
      step := match s.threads[t]
        case SeedingNow => SeedEnds(t, true, 0)
        case AfterSeed => SeedAnswers(t)
        case WantsAdmission => Locks(t)
        case _ => Releases(t);
      assert !At(s, t, Checking) && !At(s, t, Draining);
    }
  }

  /** A drain cannot be overtaken: until the draining thread goes on, executions only end. */
  lemma DrainOnlyShrinks(limits: Limits, run: seq<Sys>, steps: seq<Step>, n: nat, t: nat)
    requires IsRun(limits, run, steps) && n < |steps|
    requires At(run[n], t, Draining) && !(steps[n].Drained? && steps[n].thread == t)
    ensures At(run[n + 1], t, Draining) && Outstanding(run[n + 1]) <= Outstanding(run[n])
    ensures steps[n].Releases? ==> run[n + 1].gate.executions < run[n].gate.executions
  {
    RunKeeps(limits, run, steps, n);
    var s, step := run[n], steps[n];
    assert s.admission == Some(t);
  }
}
