/** The resource lease manager (internal/resource/resource.go).

    `Core` is what the manager's lock protects, and the functions on it are the sections that run
    with the lock held; the class carries the same sections out on objects.  Which instances there
    are is left open: objects for the class, numbers for the machine of `LeaseRuns`. */
module Leases {
  import opened Wrappers

  datatype Spec = Spec(shared: bool, exclusive: bool)

  /** `caps` remembers the capability of every instance ever started, `refs` counts for active ones.
      `changed` numbers the channel that the next state change closes; smaller ones are closed. */
  datatype Core<I> = Core(specs: map<string, Spec>, active: set<I>, refs: map<I, int>, caps: map<I, string>,
                          shared: map<string, I>, nextId: nat, closed: bool, changed: nat)

  datatype Outcome<+I> =
    | ManagerClosed | NoProvider | SharedAndExclusive
    | Wait(channel: nat)
    | StartFailed
    | Granted(instance: I)

  predicate CapabilityActive<I(==)>(core: Core<I>, cap: string)
  {
    exists i :: i in core.active && i in core.caps && core.caps[i] == cap
  }

  /** Acquire hands out the instance that is already shared. */
  predicate Shares<I(==)>(core: Core<I>, cap: string)
  {
    cap in core.specs && core.specs[cap].shared && cap in core.shared && core.shared[cap] in core.refs
  }

  /** One pass of Acquire's loop and what follows it; `started` is the instance a successful start yields. */
  function AcquireStep<I(==)>(core: Core<I>, cap: string, started: Option<I>): (Core<I>, Outcome<I>)
  {
    if core.closed then (core, ManagerClosed)
    else if cap !in core.specs then (core, NoProvider)
    else if core.specs[cap].shared && core.specs[cap].exclusive then (core, SharedAndExclusive)
    else if core.specs[cap].exclusive && CapabilityActive(core, cap) then (core, Wait(core.changed))
    else if Shares(core, cap) then
      var i := core.shared[cap];
      (core.(refs := core.refs[i := core.refs[i] + 1]), Granted(i))
    else if started.None? then (core.(nextId := core.nextId + 1), StartFailed)
    else
      var i := started.value;
      (core.(nextId := core.nextId + 1, active := core.active + {i}, refs := core.refs[i := 1],
             caps := core.caps[i := cap],
             shared := if core.specs[cap].shared then core.shared[cap := i] else core.shared), Granted(i))
  }

  /** The first section of release: true when the caller has to stop the instance. */
  function ReleaseStep<I(==)>(core: Core<I>, i: I): (Core<I>, bool)
  {
    if i !in core.active || i !in core.refs || i !in core.caps then (core, false)
    else
      var dropped := core.(refs := core.refs[i := core.refs[i] - 1]);
      var cap := core.caps[i];
      if dropped.refs[i] > 0 then (dropped, false)
      else if cap in core.shared && core.shared[cap] == i then (dropped.(shared := core.shared - {cap}), true)
      else (dropped, true)
  }

  /** The section after the stop. */
  function ForgetStep<I(==)>(core: Core<I>, i: I): Core<I>
  {
    if i !in core.active then core
    else core.(active := core.active - {i}, refs := core.refs - {i}, changed := core.changed + 1)
  }

  function CloseStep<I>(core: Core<I>): Core<I>
  {
    if core.closed then core
    else core.(closed := true, active := {}, refs := map[], shared := map[], changed := core.changed + 1)
  }

  // ---- The manager ----

  class Instance {
    const capability: string
    var refs: int

    constructor (capability: string)
      ensures this.capability == capability && refs == 1
    {
      this.capability, refs := capability, 1;
    }
  }

  class Manager {
    const specs: map<string, Spec>
    var active: set<Instance>
    var shared: map<string, Instance>
    var nextId: nat
    var closed: bool
    var changed: nat
    /** Every instance ever started. */
    ghost var started: set<Instance>

    ghost predicate Valid()
      reads this
    {
      active <= started && forall c :: c in shared ==> shared[c] in active && shared[c].capability == c
    }

    ghost function View(): Core<Instance>
      reads this, active
    {
      Core(specs, active, map a | a in active :: a.refs, map a | a in started :: a.capability,
           shared, nextId, closed, changed)
    }

    constructor (specs: map<string, Spec>)
      ensures Valid() && View() == Core(specs, {}, map[], map[], map[], 0, false, 0)
    {
      this.specs := specs;
      active, shared, nextId, closed, changed, started := {}, map[], 0, false, 0, {};
    }

    /** capabilityActive: a walk over the active instances, in no particular order. */
    method Busy(capability: string) returns (busy: bool)
      ensures busy <==> exists a :: a in active && a.capability == capability
    {
      var rest := active;
      while rest != {}
        invariant rest <= active
        invariant forall a :: a in active && a !in rest ==> a.capability != capability
        decreases rest
      {
        var provider :| provider in rest;
        if provider.capability == capability {
          return true;
        }
        rest := rest - {provider};
      }
      busy := false;
    }

    method Acquire(capability: string, starts: bool) returns (outcome: Outcome<Instance>, ghost made: Option<Instance>)
      requires Valid()
      modifies this, active
      ensures Valid() && (View(), outcome) == AcquireStep(old(View()), capability, made)
      ensures made.Some? ==> starts && fresh(made.value)
      ensures outcome.StartFailed? ==> !starts
      ensures outcome.Granted? ==> outcome.instance in active && outcome.instance.capability == capability
      ensures fresh(active - old(active))
    {
      made := None;
      if closed {
        return ManagerClosed, None;
      }
      if capability !in specs {
        return NoProvider, None;
      }
      var spec := specs[capability];
      if spec.shared && spec.exclusive {
        return SharedAndExclusive, None;
      }
      if spec.exclusive {
        var busy := Busy(capability);
        if busy {
          return Wait(changed), None;
        }
      }
      if spec.shared && capability in shared {
        var existing := shared[capability];
        existing.refs := existing.refs + 1;
        assert View().refs == old(View()).refs[existing := existing.refs];
        return Granted(existing), None;
      }
      nextId := nextId + 1;
      if !starts {
        assert View() == old(View()).(nextId := nextId);
        return StartFailed, None;
      }
      var instance := Start(capability);
      outcome, made := Granted(instance), Some(instance);
      assert View().refs == old(View()).refs[instance := 1];
      assert View().caps == old(View()).caps[instance := capability];
    }

    /** The end of Acquire: the provider became ready. */
    method Start(capability: string) returns (instance: Instance)
      requires Valid() && capability in specs
      modifies this`active, this`started, this`shared
      ensures Valid() && fresh(instance) && instance.capability == capability && instance.refs == 1
      ensures active == old(active) + {instance} && started == old(started) + {instance}
      ensures shared == if specs[capability].shared then old(shared)[capability := instance] else old(shared)
    {
      instance := new Instance(capability);
      active := active + {instance};
      started := started + {instance};
      if specs[capability].shared {
        shared := shared[capability := instance];
      }
    }

    method Release(target: Instance) returns (mustStop: bool)
      requires Valid()
      modifies this`shared, target`refs
      ensures Valid() && (View(), mustStop) == ReleaseStep(old(View()), target)
    {
      if target !in active {
        return false;
      }
      target.refs := target.refs - 1;
      if target.refs > 0 {
        assert View() == old(View()).(refs := old(View()).refs[target := target.refs]);
        return false;
      }
      if target.capability in shared && shared[target.capability] == target {
        shared := shared - {target.capability};
        assert View() == old(View()).(refs := old(View()).refs[target := target.refs], shared := shared);
      } else {
        assert View() == old(View()).(refs := old(View()).refs[target := target.refs]);
      }
      mustStop := true;
    }

    method Forget(target: Instance)
      requires Valid() && forall c :: c in shared ==> shared[c] != target
      modifies this`active, this`changed
      ensures Valid() && View() == ForgetStep(old(View()), target)
    {
      if target in active {
        active := active - {target};
        changed := changed + 1;
      }
    }

    method Close() returns (victims: set<Instance>)
      requires Valid()
      modifies this`closed, this`active, this`shared, this`changed
      ensures Valid() && View() == CloseStep(old(View()))
      ensures victims == if old(closed) then {} else old(active)
    {
      if closed {
        return {};
      }
      closed := true;
      victims := active;
      active := {};
      shared := map[];
      changed := changed + 1;
    }
  }
}
