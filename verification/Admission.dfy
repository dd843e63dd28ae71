/** Admission to the native build cache (internal/assure/buildcache.go): executions run against a
    shared directory that may only be refreshed or collected when none of them is under way.

    `Gate` is what the projection's mutex protects; the class carries out the sections that hold it. */
module Admission {
  import opened Wrappers

  /** Limits of one run: the size limit (none when not positive) and the collection interval. */
  datatype Limits = Limits(maxBytes: int, interval: nat)

  datatype Gate = Gate(generation: nat, seededGeneration: nat, seedFailed: bool, disabled: bool,
                       lastCollect: Option<int>, executions: int)

  predicate CollectDue(limits: Limits, g: Gate, now: int)
  {
    limits.maxBytes > 0 && (g.lastCollect.None? || now - g.lastCollect.value >= limits.interval)
  }

  /** The end of seedNative's one attempt, which read the generation before it began. */
  function SeedStep(g: Gate, read: nat, ok: bool, now: int): Gate
  {
    if ok then g.(seedFailed := false, seededGeneration := read, lastCollect := Some(now)) else g.(seedFailed := true)
  }

  function DirtyStep(g: Gate): Gate
  {
    g.(generation := g.generation + 1)
  }

  datatype Verdict = Refused | Drain | Admitted

  /** beginNative up to the drain, or to the end when no drain is needed. */
  function CheckStep(limits: Limits, g: Gate, now: int): (Gate, Verdict)
  {
    if g.disabled then (g, Refused)
    else if g.seededGeneration != g.generation || CollectDue(limits, g, now) then (g, Drain)
    else (g.(executions := g.executions + 1), Admitted)
  }

  /** What the outside world answers during the section after the drain. */
  datatype Answers = Answers(refreshOk: bool, refreshedAt: int, collectOk: bool, collectedAt: int)

  function Refreshed(g: Gate, a: Answers): Gate
  {
    if g.seededGeneration == g.generation then g
    else if !a.refreshOk then g.(disabled := true)
    else g.(seededGeneration := g.generation, lastCollect := Some(a.refreshedAt))
  }

  /** collectNativeLocked runs CollectNative. */
  predicate Collects(limits: Limits, g: Gate, force: bool, now: int)
  {
    && limits.maxBytes > 0 && !g.seedFailed && !g.disabled
    && (force || g.lastCollect.None? || now - g.lastCollect.value >= limits.interval)
  }

  function CollectStep(limits: Limits, g: Gate, force: bool, ok: bool, now: int): Gate
  {
    if !Collects(limits, g, force, now) then g
    else if ok then g.(lastCollect := Some(now))
    else g.(lastCollect := Some(now), disabled := true)
  }

  function AfterDrainStep(limits: Limits, g: Gate, a: Answers): (Gate, Verdict)
  {
    var h := CollectStep(limits, Refreshed(g, a), false, a.collectOk, a.collectedAt);
    if h.disabled then (h, Refused) else (h.(executions := h.executions + 1), Admitted)
  }

  class NativeProjection {
    const limits: Limits
    var generation: nat
    var seededGeneration: nat
    var seedFailed: bool
    var disabled: bool
    var lastCollect: Option<int>
    var executions: int

    constructor (limits: Limits)
      ensures this.limits == limits && View() == Gate(0, 0, false, false, None, 0)
    {
      this.limits := limits;
      generation, seededGeneration, seedFailed, disabled, lastCollect, executions := 0, 0, false, false, None, 0;
    }

    function View(): Gate
      reads this
    {
      Gate(generation, seededGeneration, seedFailed, disabled, lastCollect, executions)
    }

    method FinishSeed(read: nat, ok: bool, now: int)
      modifies this`seedFailed, this`seededGeneration, this`lastCollect
      ensures View() == SeedStep(old(View()), read, ok, now)
    {
      seedFailed := !ok;
      if ok {
        seededGeneration := read;
        lastCollect := Some(now);
      }
    }

    method MarkDirty()
      modifies this`generation
      ensures View() == DirtyStep(old(View()))
    {
      generation := generation + 1;
    }

    method Check(now: int) returns (verdict: Verdict)
      modifies this`executions
      ensures (View(), verdict) == CheckStep(limits, old(View()), now)
    {
      if disabled {
        return Refused;
      }
      var refresh := seededGeneration != generation;
      var collect := limits.maxBytes > 0 && (lastCollect.None? || now - lastCollect.value >= limits.interval);
      if refresh || collect {
        return Drain;
      }
      executions := executions + 1;
      verdict := Admitted;
    }

    method Collect(force: bool, ok: bool, now: int)
      modifies this`lastCollect, this`disabled
      ensures View() == CollectStep(limits, old(View()), force, ok, now)
    {
      if limits.maxBytes <= 0 || seedFailed || disabled {
        return;
      }
      if !force && lastCollect.Some? && now - lastCollect.value < limits.interval {
        return;
      }
      lastCollect := Some(now);
      if !ok {
        disabled := true;
      }
    }

    method AfterDrain(answers: Answers) returns (verdict: Verdict)
      modifies this`disabled, this`seededGeneration, this`lastCollect, this`executions
      ensures (View(), verdict) == AfterDrainStep(limits, old(View()), answers)
    {
      if seededGeneration != generation {
        if !answers.refreshOk {
          disabled := true;
        } else {
          seededGeneration := generation;
          lastCollect := Some(answers.refreshedAt);
        }
      }
      Collect(false, answers.collectOk, answers.collectedAt);
      if disabled {
        return Refused;
      }
      executions := executions + 1;
      verdict := Admitted;
    }

    /** The release of an admitted execution: it takes no lock. */
    method Done()
      modifies this`executions
      ensures View() == old(View()).(executions := old(executions) - 1)
    {
      executions := executions - 1;
    }
  }
}
