/** Every interleaving of Acquire, Release and Close (internal/resource/resource.go): threads take
    the manager's locked sections one at a time, and wait, stop instances and give up outside it. */
module LeaseRuns {
  import opened Wrappers
  import opened Leases

  datatype Lease = Lease(instance: nat, released: bool)

  /** Where a thread inside an operation stands between two locked sections. */
  datatype Place =
    | Waiting(cap: string, channel: nat)
    | Stopping(instance: nat)
    | Stopped(instance: nat)
    | Closing(rest: set<nat>)

  datatype Sys = Sys(core: Core<nat>, leases: seq<Lease>, stopped: set<nat>, threads: map<nat, Place>)

  datatype Step =
    | Acquires(thread: nat, cap: string, starts: bool)
    | GivesUp(thread: nat)
    | Releases(thread: nat, lease: nat)
    | Stops(thread: nat)
    | Forgets(thread: nat)
    | Closes(thread: nat)
    | StopsVictim(thread: nat, instance: nat)
    | CloseReturns(thread: nat)

  function Init(specs: map<string, Spec>): Sys
  {
    Sys(Core(specs, {}, map[], map[], map[], 0, false, 0), [], {}, map[])
  }

  predicate Enabled(s: Sys, step: Step)
  {
    var t := step.thread;
    match step
    case Acquires(_, cap, _) =>
      t in s.threads ==> s.threads[t].Waiting? && s.threads[t].cap == cap && s.threads[t].channel < s.core.changed
    case GivesUp(_) => t in s.threads && s.threads[t].Waiting?
    case Releases(_, l) => t !in s.threads && l < |s.leases| && !s.leases[l].released
    case Stops(_) => t in s.threads && s.threads[t].Stopping?
    case Forgets(_) => t in s.threads && s.threads[t].Stopped?
    case Closes(_) => t !in s.threads
    case StopsVictim(_, i) => t in s.threads && s.threads[t].Closing? && i in s.threads[t].rest
    case CloseReturns(_) => t in s.threads && s.threads[t] == Closing({})
  }

  /** The instance number a start would get. */
  function Offered(s: Sys, starts: bool): Option<nat>
  {
    if starts then Some(s.core.nextId + 1) else None
  }

  function Apply(s: Sys, step: Step): Sys
    requires Enabled(s, step)
  {
    var t := step.thread;
    match step
    case Acquires(_, cap, starts) =>
      var (core, outcome) := AcquireStep(s.core, cap, Offered(s, starts));
      if outcome.Wait? then s.(threads := s.threads[t := Waiting(cap, outcome.channel)])
      else if outcome.Granted? then Sys(core, s.leases + [Lease(outcome.instance, false)], s.stopped, s.threads - {t})
      else s.(core := core, threads := s.threads - {t})
    case GivesUp(_) => s.(threads := s.threads - {t})
    case Releases(_, l) =>
      var i := s.leases[l].instance;
      var (core, mustStop) := ReleaseStep(s.core, i);
      Sys(core, s.leases[l := Lease(i, true)], s.stopped, if mustStop then s.threads[t := Stopping(i)] else s.threads)
    case Stops(_) =>
      var i := s.threads[t].instance;
      s.(stopped := s.stopped + {i}, threads := s.threads[t := Stopped(i)])
    case Forgets(_) => s.(core := ForgetStep(s.core, s.threads[t].instance), threads := s.threads - {t})
    case Closes(_) =>
      if s.core.closed then s
      else s.(core := CloseStep(s.core), threads := s.threads[t := Closing(s.core.active)])
    case StopsVictim(_, i) =>
      s.(stopped := s.stopped + {i}, threads := s.threads[t := Closing(s.threads[t].rest - {i})])
    case CloseReturns(_) => s.(threads := s.threads - {t})
  }

  // ---- Counting leases ----

  function Held(leases: seq<Lease>, i: nat): nat
  {
    if leases == [] then 0
    else (if leases[0].instance == i && !leases[0].released then 1 else 0) + Held(leases[1..], i)
  }

  lemma {:induction false} HeldAppend(leases: seq<Lease>, l: Lease, i: nat)
    ensures Held(leases + [l], i) == Held(leases, i) + (if l.instance == i && !l.released then 1 else 0)
  {
    if leases == [] {
      assert [l][1..] == [];
      assert leases + [l] == [l];
    } else {
      assert (leases + [l])[1..] == leases[1..] + [l];
      HeldAppend(leases[1..], l, i);
    }
  }

  lemma {:induction false} HeldRelease(leases: seq<Lease>, l: nat, i: nat)
    requires l < |leases| && !leases[l].released
    ensures Held(leases[l := leases[l].(released := true)], i)
         == Held(leases, i) - (if leases[l].instance == i then 1 else 0)
  {
    var after := leases[l := leases[l].(released := true)];
    if l == 0 {
      assert after[1..] == leases[1..];
    } else {
      assert after[1..] == leases[1..][l - 1 := leases[1..][l - 1].(released := true)];
      HeldRelease(leases[1..], l - 1, i);
    }
  }

  lemma {:induction false} HeldUnknown(leases: seq<Lease>, i: nat)
    requires forall l :: 0 <= l < |leases| ==> leases[l].instance != i
    ensures Held(leases, i) == 0
  {
    if leases != [] {
      assert leases[0].instance != i;
      HeldUnknown(leases[1..], i);
    }
  }

  lemma {:induction false} HeldWitness(leases: seq<Lease>, i: nat)
    requires Held(leases, i) > 0
    ensures exists l :: 0 <= l < |leases| && leases[l].instance == i && !leases[l].released
  {
    if leases[0].instance != i || leases[0].released {
      HeldWitness(leases[1..], i);
      var l :| 0 <= l < |leases[1..]| && leases[1..][l].instance == i && !leases[1..][l].released;
      assert leases[l + 1] == leases[1..][l];
    }
  }

  // ---- The invariant ----

  ghost predicate BeingStopped(s: Sys, i: nat)
  {
    exists t :: t in s.threads && (s.threads[t] == Stopping(i) || s.threads[t] == Stopped(i))
  }

  ghost predicate Victim(s: Sys, i: nat)
  {
    exists t :: t in s.threads && s.threads[t].Closing? && i in s.threads[t].rest
  }

  ghost predicate CoreInv(c: Core<nat>)
  {
    && (forall i :: i in c.caps ==> i <= c.nextId)
    && c.active <= c.caps.Keys && c.refs.Keys == c.active
    && (forall cap :: cap in c.shared ==>
          && c.shared[cap] in c.active && c.caps[c.shared[cap]] == cap && c.refs[c.shared[cap]] > 0
          && cap in c.specs && c.specs[cap].shared)
    && (c.closed ==> c.active == {} && c.shared == map[])
  }

  /** An active instance counts its unreleased leases, and at zero somebody is stopping it. */
  ghost predicate LeaseInv(s: Sys)
    requires CoreInv(s.core)
  {
    && (forall l :: 0 <= l < |s.leases| ==> s.leases[l].instance in s.core.caps)
    && (forall i :: i in s.core.active ==> s.core.refs[i] == Held(s.leases, i))
    && (forall i :: i in s.core.active && s.core.refs[i] == 0 ==> BeingStopped(s, i))
  }

  ghost predicate StopInv(s: Sys)
    requires CoreInv(s.core)
  {
    && (forall t :: t in s.threads && (s.threads[t].Stopping? || s.threads[t].Stopped?) ==>
          var i := s.threads[t].instance;
          && i in s.core.caps && (i in s.core.active ==> s.core.refs[i] == 0)
          && (s.threads[t].Stopped? ==> i in s.stopped))
    && (forall t :: t in s.threads && s.threads[t].Closing? ==> s.core.closed && s.threads[t].rest <= s.core.caps.Keys)
    && s.stopped <= s.core.caps.Keys
    && (forall i :: i in s.core.active && i in s.stopped ==> s.core.refs[i] == 0)
    && (forall i :: i in s.core.caps && i !in s.core.active ==> i in s.stopped || Victim(s, i))
  }

  ghost predicate ExclusiveInv(s: Sys)
  {
    forall i, j :: i in s.core.caps && j in s.core.caps && i != j && i !in s.stopped && j !in s.stopped ==>
      s.core.caps[i] != s.core.caps[j] || !Exclusive(s.core, s.core.caps[i])
  }

  predicate Exclusive(c: Core<nat>, cap: string)
  {
    cap in c.specs && c.specs[cap].exclusive
  }

  ghost predicate WaitInv(s: Sys)
  {
    forall t :: t in s.threads && s.threads[t].Waiting? ==>
      && s.threads[t].channel <= s.core.changed
      && (s.threads[t].channel == s.core.changed ==> !s.core.closed && CapabilityActive(s.core, s.threads[t].cap))
  }

  ghost predicate Inv(s: Sys)
  {
    CoreInv(s.core) && LeaseInv(s) && StopInv(s) && ExclusiveInv(s) && WaitInv(s)
  }

  /** The step of `t` leaves every other thread where it was and stops nothing. */
  ghost predicate OthersUntouched(s: Sys, d: Sys, t: nat)
  {
    && d.stopped == s.stopped
    && (t in s.threads ==> s.threads[t].Waiting?)
    && (forall u :: u in s.threads && u != t ==> u in d.threads && d.threads[u] == s.threads[u])
    && (forall u :: u in d.threads && u != t ==> u in s.threads)
  }

  /** A thread that was not stopping or closing may leave without taking a stop with it. */
  lemma OthersStay(s: Sys, d: Sys, t: nat)
    requires OthersUntouched(s, d, t)
    ensures forall i :: BeingStopped(s, i) ==> BeingStopped(d, i)
    ensures forall i :: Victim(s, i) ==> Victim(d, i)
  {
    forall i | BeingStopped(s, i) ensures BeingStopped(d, i) {
      var u :| u in s.threads && (s.threads[u] == Stopping(i) || s.threads[u] == Stopped(i));
      assert u in d.threads;
    }
    forall i | Victim(s, i) ensures Victim(d, i) {
      var u :| u in s.threads && s.threads[u].Closing? && i in s.threads[u].rest;
      assert u in d.threads;
    }
  }

  /** Instances may be added or referenced; none is forgotten, none becomes active again. */
  ghost predicate CoreGrows(c: Core<nat>, d: Core<nat>)
  {
    && d.specs == c.specs && d.closed == c.closed && d.changed == c.changed
    && c.active <= d.active
    && (forall i :: i in c.caps ==> i in d.caps && d.caps[i] == c.caps[i] && (i in d.active ==> i in c.active))
    && (forall i :: i in d.caps && i !in c.caps ==> i in d.active)
  }

  lemma StopInvFrame(s: Sys, d: Sys, t: nat)
    requires CoreInv(s.core) && StopInv(s) && CoreInv(d.core) && CoreGrows(s.core, d.core) && OthersUntouched(s, d, t)
    requires t in d.threads ==> d.threads[t].Waiting? || d.threads[t].Stopping?
    requires t in d.threads && d.threads[t].Stopping? ==>
      d.threads[t].instance in d.core.active && d.core.refs[d.threads[t].instance] == 0
    requires forall i :: i in s.core.active && s.core.refs[i] == 0 ==> d.core.refs[i] == 0
    ensures StopInv(d)
  {
    OthersStay(s, d, t);
  }

  lemma WaitInvFrame(s: Sys, d: Sys, t: nat)
    requires WaitInv(s) && CoreGrows(s.core, d.core) && OthersUntouched(s, d, t)
    requires t in d.threads && d.threads[t].Waiting? ==>
      d.threads[t].channel == s.core.changed && !s.core.closed && CapabilityActive(s.core, d.threads[t].cap)
    ensures WaitInv(d)
  {
    forall cap | CapabilityActive(s.core, cap) ensures CapabilityActive(d.core, cap) {
      var i :| i in s.core.active && i in s.core.caps && s.core.caps[i] == cap;
      assert i in d.core.active;
    }
  }

  lemma AcquireNothingKeeps(s: Sys, step: Step)
    requires Inv(s) && step.Acquires? && Enabled(s, step)
    requires !AcquireStep(s.core, step.cap, Offered(s, step.starts)).1.Granted?
    ensures Inv(Apply(s, step))
  {
    hide StopInv, WaitInv, LeaseInv;
    var d := Apply(s, step);
    assert CoreInv(d.core) && CoreGrows(s.core, d.core) && OthersUntouched(s, d, step.thread);
    OthersStay(s, d, step.thread);
    LeaseInvFrame(s, d);
    StopInvFrame(s, d, step.thread);
    WaitInvFrame(s, d, step.thread);
  }

  lemma LeaseInvFrame(s: Sys, d: Sys)
    requires CoreInv(s.core) && LeaseInv(s) && d.core == s.core.(nextId := d.core.nextId) && CoreInv(d.core)
    requires d.leases == s.leases && forall j :: BeingStopped(s, j) ==> BeingStopped(d, j)
    ensures LeaseInv(d)
  {
  }

  lemma AcquireSharedKeeps(s: Sys, step: Step)
    requires Inv(s) && step.Acquires? && Enabled(s, step)
    requires AcquireStep(s.core, step.cap, Offered(s, step.starts)).1.Granted? && Shares(s.core, step.cap)
    ensures Inv(Apply(s, step))
  {
    hide StopInv, WaitInv, LeaseInv;
    var d := Apply(s, step);
    var i := s.core.shared[step.cap];
    assert CoreInv(d.core) && CoreGrows(s.core, d.core) && OthersUntouched(s, d, step.thread);
    OthersStay(s, d, step.thread);
    SharedLeaseInv(s, d, i);
    StopInvFrame(s, d, step.thread);
    WaitInvFrame(s, d, step.thread);
  }

  lemma SharedLeaseInv(s: Sys, d: Sys, i: nat)
    requires CoreInv(s.core) && LeaseInv(s) && CoreInv(d.core)
    requires i in s.core.active && s.core.refs[i] > 0
    requires d.leases == s.leases + [Lease(i, false)]
    requires d.core == s.core.(refs := s.core.refs[i := s.core.refs[i] + 1])
    requires forall j :: BeingStopped(s, j) ==> BeingStopped(d, j)
    ensures LeaseInv(d)
  {
    forall j ensures Held(d.leases, j) == Held(s.leases, j) + (if j == i then 1 else 0) {
      HeldAppend(s.leases, Lease(i, false), j);
    }
  }

  lemma AcquireNewCore(c: Core<nat>, cap: string, offered: Option<nat>)
    requires CoreInv(c) && (offered.Some? ==> offered.value == c.nextId + 1)
    requires AcquireStep(c, cap, offered).1.Granted? && !Shares(c, cap)
    ensures offered.Some? && AcquireStep(c, cap, offered).1.instance == offered.value && offered.value !in c.caps
    ensures offered.value !in c.active
    ensures var d := AcquireStep(c, cap, offered).0;
      && CoreInv(d) && CoreGrows(c, d) && !c.closed
      && d.active == c.active + {offered.value} && d.refs == c.refs[offered.value := 1]
      && d.caps == c.caps[offered.value := cap]
    ensures Exclusive(c, cap) ==> !CapabilityActive(c, cap)
  {
  }

  lemma AcquireNewKeeps(s: Sys, step: Step)
    requires Inv(s) && step.Acquires? && Enabled(s, step)
    requires AcquireStep(s.core, step.cap, Offered(s, step.starts)).1.Granted? && !Shares(s.core, step.cap)
    ensures Inv(Apply(s, step))
  {
    hide StopInv, WaitInv, LeaseInv, ExclusiveInv, CoreInv;
    var d := Apply(s, step);
    AcquireNewCore(s.core, step.cap, Offered(s, step.starts));
    hide AcquireStep;
    var i := s.core.nextId + 1;
    assert OthersUntouched(s, d, step.thread);
    OthersStay(s, d, step.thread);
    NewLeaseInv(s, d, i);
    StopInvFrame(s, d, step.thread);
    WaitInvFrame(s, d, step.thread);
    NewExclusive(s, d, step.cap, i);
  }

  lemma NewLeaseInv(s: Sys, d: Sys, i: nat)
    requires CoreInv(s.core) && LeaseInv(s) && CoreInv(d.core) && i !in s.core.caps
    requires d.leases == s.leases + [Lease(i, false)]
    requires d.core.active == s.core.active + {i} && d.core.refs == s.core.refs[i := 1]
    requires i in d.core.caps && s.core.caps.Keys <= d.core.caps.Keys
    requires forall j :: BeingStopped(s, j) ==> BeingStopped(d, j)
    ensures LeaseInv(d)
  {
    HeldUnknown(s.leases, i);
    forall j ensures Held(d.leases, j) == Held(s.leases, j) + (if j == i then 1 else 0) {
      HeldAppend(s.leases, Lease(i, false), j);
    }
  }

  /** An exclusive capability that is not active has nothing left to stop while the manager is open. */
  lemma NewExclusive(s: Sys, d: Sys, cap: string, i: nat)
    requires Inv(s) && !s.core.closed && (Exclusive(s.core, cap) ==> !CapabilityActive(s.core, cap))
    requires d.core.specs == s.core.specs && d.core.caps == s.core.caps[i := cap] && d.stopped == s.stopped
    ensures ExclusiveInv(d)
  {
    if Exclusive(s.core, cap) {
      forall j | j in s.core.caps && s.core.caps[j] == cap ensures j in s.stopped {
        assert j !in s.core.active;
      }
    }
  }

  lemma AcquireKeeps(s: Sys, step: Step)
    requires Inv(s) && step.Acquires? && Enabled(s, step)
    ensures Inv(Apply(s, step))
  {
    hide Inv;
    if !AcquireStep(s.core, step.cap, Offered(s, step.starts)).1.Granted? {
      AcquireNothingKeeps(s, step);
    } else if Shares(s.core, step.cap) {
      AcquireSharedKeeps(s, step);
    } else {
      AcquireNewKeeps(s, step);
    }
  }

  lemma ReleaseKeeps(s: Sys, step: Step)
    requires Inv(s) && step.Releases? && Enabled(s, step)
    ensures Inv(Apply(s, step))
  {
    hide StopInv, WaitInv, LeaseInv;
    var i := s.leases[step.lease].instance;
    var d := Apply(s, step);
    HeldMeansReferenced(s, step.lease);
    ReleaseCoreInv(s.core, i);
    assert OthersUntouched(s, d, step.thread);
    OthersStay(s, d, step.thread);
    if ReleaseStep(s.core, i).1 {
      assert d.threads[step.thread] == Stopping(i);
    }
    ReleaseLeaseInv(s, d, step.lease);
    StopInvFrame(s, d, step.thread);
    WaitInvFrame(s, d, step.thread);
    assert ExclusiveInv(d);
  }

  lemma HeldMeansReferenced(s: Sys, l: nat)
    requires CoreInv(s.core) && LeaseInv(s) && l < |s.leases| && !s.leases[l].released
    ensures s.leases[l].instance in s.core.active ==> s.core.refs[s.leases[l].instance] >= 1
  {
    HeldRelease(s.leases, l, s.leases[l].instance);
  }

  lemma ReleaseCoreInv(c: Core<nat>, i: nat)
    requires CoreInv(c) && (i in c.active ==> c.refs[i] >= 1)
    ensures CoreInv(ReleaseStep(c, i).0) && CoreGrows(c, ReleaseStep(c, i).0)
    ensures ReleaseStep(c, i).1 ==> i in c.active && ReleaseStep(c, i).0.refs[i] == 0
  {
  }

  lemma ReleaseLeaseInv(s: Sys, d: Sys, l: nat)
    requires CoreInv(s.core) && LeaseInv(s) && CoreInv(d.core)
    requires l < |s.leases| && !s.leases[l].released && d.leases == s.leases[l := Lease(s.leases[l].instance, true)]
    requires d.core == ReleaseStep(s.core, s.leases[l].instance).0
    requires forall j :: BeingStopped(s, j) ==> BeingStopped(d, j)
    requires ReleaseStep(s.core, s.leases[l].instance).1 ==> BeingStopped(d, s.leases[l].instance)
    ensures LeaseInv(d)
  {
    var i := s.leases[l].instance;
    forall j ensures Held(d.leases, j) == Held(s.leases, j) - (if j == i then 1 else 0) {
      HeldRelease(s.leases, l, j);
    }
  }

  lemma StopKeeps(s: Sys, step: Step)
    requires Inv(s) && step.Stops? && Enabled(s, step)
    ensures Inv(Apply(s, step))
  {
    var d := Apply(s, step);
    var t := step.thread;
    forall i | BeingStopped(s, i) ensures BeingStopped(d, i) {
      var u :| u in s.threads && (s.threads[u] == Stopping(i) || s.threads[u] == Stopped(i));
      assert u in d.threads;
    }
    forall i | Victim(s, i) ensures Victim(d, i) {
      var u :| u in s.threads && s.threads[u].Closing? && i in s.threads[u].rest;
      assert u in d.threads;
    }
  }

  lemma ForgetKeeps(s: Sys, step: Step)
    requires Inv(s) && step.Forgets? && Enabled(s, step)
    ensures Inv(Apply(s, step))
  {
    var d := Apply(s, step);
    var gone := s.threads[step.thread].instance;
    forall i | i != gone && BeingStopped(s, i) ensures BeingStopped(d, i) {
      var u :| u in s.threads && (s.threads[u] == Stopping(i) || s.threads[u] == Stopped(i));
      assert u in d.threads;
    }
    forall i | Victim(s, i) ensures Victim(d, i) {
      var u :| u in s.threads && s.threads[u].Closing? && i in s.threads[u].rest;
      assert u in d.threads;
    }
  }

  lemma CloseKeeps(s: Sys, step: Step)
    requires Inv(s) && step.Closes? && Enabled(s, step)
    ensures Inv(Apply(s, step))
  {
    var d := Apply(s, step);
    var t := step.thread;
    if !s.core.closed {
      forall i | i in s.core.caps ensures i in d.stopped || Victim(d, i) {
        if i in s.core.active {
          assert d.threads[t].Closing? && i in d.threads[t].rest;
        }
      }
    }
  }

  lemma VictimKeeps(s: Sys, step: Step)
    requires Inv(s) && (step.StopsVictim? || step.CloseReturns?) && Enabled(s, step)
    ensures Inv(Apply(s, step))
  {
    var d := Apply(s, step);
    forall i | Victim(s, i) ensures i in d.stopped || Victim(d, i) {
      var u :| u in s.threads && s.threads[u].Closing? && i in s.threads[u].rest;
      if i !in d.stopped {
        assert u in d.threads && d.threads[u].Closing? && i in d.threads[u].rest;
      }
    }
  }

  lemma StepKeeps(s: Sys, step: Step)
    requires Inv(s) && Enabled(s, step)
    ensures Inv(Apply(s, step))
  {
    match step
    case Acquires(_, _, _) => AcquireKeeps(s, step);
    case GivesUp(t) => OthersStay(s, Apply(s, step), t);
    case Releases(_, _) => ReleaseKeeps(s, step);
    case Stops(_) => StopKeeps(s, step);
    case Forgets(_) => ForgetKeeps(s, step);
    case Closes(_) => CloseKeeps(s, step);
    case _ => VictimKeeps(s, step);
  }

  ghost predicate IsRun(specs: map<string, Spec>, run: seq<Sys>, steps: seq<Step>)
  {
    && |run| == |steps| + 1 && run[0] == Init(specs)
    && forall i :: 0 <= i < |steps| ==> Enabled(run[i], steps[i]) && run[i + 1] == Apply(run[i], steps[i])
  }

  lemma {:induction false} RunKeeps(specs: map<string, Spec>, run: seq<Sys>, steps: seq<Step>, n: nat)
    requires IsRun(specs, run, steps) && n <= |steps|
    ensures Inv(run[n])
  {
    if n > 0 {
      RunKeeps(specs, run, steps, n - 1);
      StepKeeps(run[n - 1], steps[n - 1]);
    }
  }

  /** At no point do two instances of an exclusive capability exist that are not fully stopped. */
  lemma ExclusiveSafety(specs: map<string, Spec>, run: seq<Sys>, steps: seq<Step>, n: nat, i: nat, j: nat)
    requires IsRun(specs, run, steps) && n <= |steps|
    requires i in run[n].core.caps && j in run[n].core.caps && run[n].core.caps[i] == run[n].core.caps[j]
    requires Exclusive(run[n].core, run[n].core.caps[i]) && i !in run[n].stopped && j !in run[n].stopped
    ensures i == j
  {
    RunKeeps(specs, run, steps, n);
  }

  /** An active instance has exactly as many references as it has unreleased leases. */
  lemma ReferencesCountLeases(specs: map<string, Spec>, run: seq<Sys>, steps: seq<Step>, n: nat, i: nat)
    requires IsRun(specs, run, steps) && n <= |steps| && i in run[n].core.active
    ensures i in run[n].core.refs && run[n].core.refs[i] == Held(run[n].leases, i)
  {
    RunKeeps(specs, run, steps, n);
  }

  /** What Acquire hands out is neither stopped nor about to be: whether new or shared. */
  lemma GrantedIsLive(specs: map<string, Spec>, run: seq<Sys>, steps: seq<Step>, n: nat)
    requires IsRun(specs, run, steps) && n < |steps| && steps[n].Acquires?
    requires AcquireStep(run[n].core, steps[n].cap, Offered(run[n], steps[n].starts)).1.Granted?
    ensures var i := AcquireStep(run[n].core, steps[n].cap, Offered(run[n], steps[n].starts)).1.instance;
      && i !in run[n].stopped && !BeingStopped(run[n], i) && !run[n].core.closed
      && i in run[n + 1].core.active && i in run[n + 1].core.caps && run[n + 1].core.caps[i] == steps[n].cap
  {
    RunKeeps(specs, run, steps, n);
  }

  // ---- sharing, and what Acquire answers

  /** An instance of a shared capability that is referenced is the one that is shared. */
  ghost predicate SharedInv(c: Core<nat>)
  {
    forall i :: i in c.active && i in c.refs && c.refs[i] > 0 && i in c.caps && c.caps[i] in c.specs && c.specs[c.caps[i]].shared ==>
      c.caps[i] in c.shared && c.shared[c.caps[i]] == i
  }

  lemma StepKeepsShared(s: Sys, step: Step)
    requires CoreInv(s.core) && Enabled(s, step) && SharedInv(s.core)
    ensures SharedInv(Apply(s, step).core)
  {
    match step
    case Acquires(_, cap, starts) => AcquireKeepsShared(s.core, cap, Offered(s, starts));
    case Releases(_, l) => ReleaseKeepsShared(s.core, s.leases[l].instance);
    case Forgets(t) => ForgetKeepsShared(s.core, s.threads[t].instance);
    case _ =>
  }

  lemma AcquireKeepsShared(c: Core<nat>, cap: string, offered: Option<nat>)
    requires CoreInv(c) && SharedInv(c)
    ensures SharedInv(AcquireStep(c, cap, offered).0)
  {
  }

  lemma ReleaseKeepsShared(c: Core<nat>, i: nat)
    requires CoreInv(c) && SharedInv(c)
    ensures SharedInv(ReleaseStep(c, i).0)
  {
  }

  lemma ForgetKeepsShared(c: Core<nat>, i: nat)
    requires CoreInv(c) && SharedInv(c)
    ensures SharedInv(ForgetStep(c, i))
  {
  }

  lemma {:induction false} RunShares(specs: map<string, Spec>, run: seq<Sys>, steps: seq<Step>, n: nat)
    requires IsRun(specs, run, steps) && n <= |steps|
    ensures SharedInv(run[n].core) && run[n].core.specs == specs
  {
    if n > 0 {
      RunShares(specs, run, steps, n - 1);
      RunKeeps(specs, run, steps, n - 1);
      hide Inv, LeaseInv, StopInv, ExclusiveInv, WaitInv, SharedInv, CoreInv, AcquireStep, ReleaseStep;
      InvHasCore(run[n - 1]);
      StepKeepsShared(run[n - 1], steps[n - 1]);
      StepKeepsSpecs(run[n - 1], steps[n - 1]);
    }
  }

  lemma InvHasCore(s: Sys)
    requires Inv(s)
    ensures CoreInv(s.core)
  {
  }

  lemma StepKeepsSpecs(s: Sys, step: Step)
    requires Enabled(s, step)
    ensures Apply(s, step).core.specs == s.core.specs
  {
  }

  /** The instance is active and somebody holds a lease on it. */
  ghost predicate InUse(s: Sys, cap: string, i: nat)
  {
    i in s.core.active && i in s.core.caps && s.core.caps[i] == cap && Held(s.leases, i) > 0
  }

  /** At no point are two instances of a shared capability in use. */
  lemma SharedIsOne(specs: map<string, Spec>, run: seq<Sys>, steps: seq<Step>, n: nat, cap: string, i: nat, j: nat)
    requires IsRun(specs, run, steps) && n <= |steps|
    requires cap in specs && specs[cap].shared && InUse(run[n], cap, i) && InUse(run[n], cap, j)
    ensures i == j
  {
    RunKeeps(specs, run, steps, n);
    RunShares(specs, run, steps, n);
  }

  /** What Acquire answers, in every state of every run: errors for a closed manager, an unknown capability
      and one that is both shared and exclusive; a wait for an exclusive one that is active; the instance in
      use of a shared one; and else a new instance, when it starts.  No start that succeeds is lost. */
  lemma AcquireAnswers(specs: map<string, Spec>, run: seq<Sys>, steps: seq<Step>, n: nat)
    requires IsRun(specs, run, steps) && n < |steps| && steps[n].Acquires?
    ensures
      var s, cap := run[n], steps[n].cap;
      var outcome := AcquireStep(s.core, cap, Offered(s, steps[n].starts)).1;
      if s.core.closed then outcome.ManagerClosed?
      else if cap !in specs then outcome.NoProvider?
      else if specs[cap].shared && specs[cap].exclusive then outcome.SharedAndExclusive?
      else if specs[cap].exclusive && (exists i :: i in s.core.active && i in s.core.caps && s.core.caps[i] == cap)
      then outcome.Wait? && outcome.channel == s.core.changed
      else if specs[cap].shared && exists i :: InUse(s, cap, i)
      then outcome.Granted? && InUse(s, cap, outcome.instance) && Held(run[n + 1].leases, outcome.instance) == Held(s.leases, outcome.instance) + 1
      else if !steps[n].starts then outcome.StartFailed?
      else outcome.Granted? && outcome.instance !in s.core.caps && InUse(run[n + 1], cap, outcome.instance)
  {
    RunKeeps(specs, run, steps, n);
    RunShares(specs, run, steps, n);
    var s, cap := run[n], steps[n].cap;
    var outcome := AcquireStep(s.core, cap, Offered(s, steps[n].starts)).1;
    if outcome.Granted? {
      HeldAppend(s.leases, Lease(outcome.instance, false), outcome.instance);
    }
    hide StopInv, WaitInv, ExclusiveInv;
    if cap in specs && specs[cap].shared && !s.core.closed {
      SharedAnswers(s, cap);
    }
    if outcome.Granted? && !Shares(s.core, cap) {
      AcquireNewCore(s.core, cap, Offered(s, steps[n].starts));
      HeldUnknown(s.leases, outcome.instance);
    }
  }

  /** The manager shares exactly what is in use. */
  lemma SharedAnswers(s: Sys, cap: string)
    requires CoreInv(s.core) && LeaseInv(s) && SharedInv(s.core) && cap in s.core.specs && s.core.specs[cap].shared
    ensures Shares(s.core, cap) <==> exists i :: InUse(s, cap, i)
    ensures Shares(s.core, cap) ==> InUse(s, cap, s.core.shared[cap])
  {
    if Shares(s.core, cap) {
      assert InUse(s, cap, s.core.shared[cap]);
    }
  }

  /** No lost wake-up: a waiter whose channel is still open waits for a capability that is still
      active in a manager that is still open. */
  lemma NoLostWakeUp(specs: map<string, Spec>, run: seq<Sys>, steps: seq<Step>, n: nat, t: nat)
    requires IsRun(specs, run, steps) && n <= |steps| && t in run[n].threads && run[n].threads[t].Waiting?
    ensures Enabled(run[n], Acquires(t, run[n].threads[t].cap, true))
         || (!run[n].core.closed && CapabilityActive(run[n].core, run[n].threads[t].cap))
  {
    RunKeeps(specs, run, steps, n);
  }

  ghost predicate Quiet(s: Sys)
  {
    forall t :: t in s.threads ==> s.threads[t].Waiting?
  }

  /** No leak: once Close and every release in flight have returned, all that ever started is stopped. */
  lemma ClosedMeansStopped(specs: map<string, Spec>, run: seq<Sys>, steps: seq<Step>, n: nat, i: nat)
    requires IsRun(specs, run, steps) && n <= |steps|
    requires run[n].core.closed && Quiet(run[n]) && i in run[n].core.caps
    ensures i in run[n].stopped
  {
    RunKeeps(specs, run, steps, n);
  }

  /** And without Close: when every lease is released and every release has returned, nothing is
      left running, so no waiter is left waiting on an open channel either. */
  lemma ReleasedMeansStopped(specs: map<string, Spec>, run: seq<Sys>, steps: seq<Step>, n: nat)
    requires IsRun(specs, run, steps) && n <= |steps| && Quiet(run[n])
    requires forall l :: 0 <= l < |run[n].leases| ==> run[n].leases[l].released
    ensures run[n].core.caps.Keys <= run[n].stopped
    ensures forall t :: t in run[n].threads ==> run[n].threads[t].channel < run[n].core.changed
  {
    RunKeeps(specs, run, steps, n);
    var s := run[n];
    forall i ensures i !in s.core.active {
      if i in s.core.active && s.core.refs[i] > 0 {
        HeldWitness(s.leases, i);
      }
    }
  }
}
