/** Sequential runs of gets, puts and collections over the two layers, from any number of processes
    that may each be persisting or not. */
module LayerRuns {
  import opened Wrappers
  import opened Layers

  datatype Op =
    | Get(id: string, now: Option<int>, faults: set<Fault>)
    | Put(request: Request)
    | Collect(source: Source)

  ghost predicate Next(s: Store, op: Op, t: Store)
  {
    match op
    case Get(id, now, faults) => t == GetStep(s, id, now, faults)
    case Put(q) => t == PutStep(s, q).0
    case Collect(source) => Collects(Pick(s, source), Pick(t, source)) && t == With(s, source, Pick(t, source))
  }

  ghost predicate Run(ops: seq<Op>, states: seq<Store>)
  {
    |states| == |ops| + 1 && forall i :: 0 <= i < |ops| ==> Next(states[i], ops[i], states[i + 1])
  }

  /** The hypothesis of content addressing: an output identifier determines the object's size. */
  ghost predicate Sized(op: Op, sizeOf: string -> int)
  {
    op.Put? ==> op.request.size == sizeOf(op.request.output)
  }

  ghost predicate RightSizes(d: Disk, sizeOf: string -> int)
  {
    forall o :: o in d.objects ==> |d.objects[o].body| == sizeOf(o)
  }

  /** Every action of the layer has its object there, at the recorded size. */
  ghost predicate Complete(d: Disk)
  {
    forall id :: Readable(d, id) ==>
      var r := d.actions[id].contents.value; Holds(d, r.output, r.size)
  }

  lemma StepKeepsSizes(s: Store, op: Op, t: Store, sizeOf: string -> int)
    requires Next(s, op, t) && Sized(op, sizeOf)
    requires RightSizes(s.scratch, sizeOf) && RightSizes(s.base, sizeOf)
    ensures RightSizes(t.scratch, sizeOf) && RightSizes(t.base, sizeOf)
  {
  }

  lemma StepKeepsBase(s: Store, op: Op, t: Store, sizeOf: string -> int)
    requires Next(s, op, t) && Sized(op, sizeOf)
    requires RightSizes(s.base, sizeOf) && Complete(s.base)
    ensures Complete(t.base)
  {
    match op
    case Get(id, now, faults) =>
    case Collect(source) =>
      if source == Base {
        forall id | Readable(t.base, id)
          ensures Holds(t.base, t.base.actions[id].contents.value.output, t.base.actions[id].contents.value.size)
        {
          assert Readable(s.base, id);
        }
      }
    case Put(q) =>
      forall id | Readable(t.base, id)
        ensures Holds(t.base, t.base.actions[id].contents.value.output, t.base.actions[id].contents.value.size)
      {
        if id != q.id {
          assert Readable(s.base, id);
        }
      }
  }

  /** Over every run, each action of the base keeps its object in the base, at the recorded size. */
  lemma {:induction false} BaseStaysComplete(ops: seq<Op>, states: seq<Store>, sizeOf: string -> int)
    requires Run(ops, states) && forall op :: op in ops ==> Sized(op, sizeOf)
    requires RightSizes(states[0].scratch, sizeOf) && RightSizes(states[0].base, sizeOf) && Complete(states[0].base)
    ensures forall i :: 0 <= i < |states| ==> Complete(states[i].base) && RightSizes(states[i].base, sizeOf)
    decreases |ops|
  {
    if ops != [] {
      StepKeepsSizes(states[0], ops[0], states[1], sizeOf);
      StepKeepsBase(states[0], ops[0], states[1], sizeOf);
      BaseStaysComplete(ops[1..], states[1..], sizeOf);
      forall i | 0 <= i < |states| ensures Complete(states[i].base) && RightSizes(states[i].base, sizeOf) {
        if i > 0 {
          assert states[i] == states[1..][i - 1];
        }
      }
    }
  }

  /** Content addressing in full: an output identifier determines the bytes. */
  ghost predicate Addressed(op: Op, bodyOf: string -> string)
  {
    op.Put? ==> op.request.body == bodyOf(op.request.output)
  }

  ghost predicate RightBodies(s: Store, bodyOf: string -> string)
  {
    && (forall o :: o in s.scratch.objects ==> s.scratch.objects[o].body == bodyOf(o))
    && (forall o :: o in s.base.objects ==> s.base.objects[o].body == bodyOf(o))
  }

  lemma StepKeepsBodies(s: Store, op: Op, t: Store, bodyOf: string -> string)
    requires Next(s, op, t) && Addressed(op, bodyOf) && RightBodies(s, bodyOf)
    ensures RightBodies(t, bodyOf)
  {
    match op
    case Get(id, now, faults) =>
    case Put(q) => PutKeepsBodies(s, q, bodyOf);
    case Collect(source) =>
  }

  lemma PutKeepsBodies(s: Store, q: Request, bodyOf: string -> string)
    requires RightBodies(s, bodyOf) && q.body == bodyOf(q.output)
    ensures RightBodies(PutStep(s, q).0, bodyOf)
  {
    hide PutStep, NoneHolds, Succeeds, SameActions;
    PutStepLeaves(s, q);
  }

  lemma {:induction false} RunKeepsBodies(ops: seq<Op>, states: seq<Store>, bodyOf: string -> string)
    requires Run(ops, states) && forall op :: op in ops ==> Addressed(op, bodyOf)
    requires RightBodies(states[0], bodyOf)
    ensures RightBodies(states[|ops|], bodyOf)
    decreases |ops|
  {
    if ops != [] {
      StepKeepsBodies(states[0], ops[0], states[1], bodyOf);
      RunKeepsBodies(ops[1..], states[1..], bodyOf);
    }
  }

  /** Over every run, collections included, a hit names a layer that has the object, and its bytes are those
      that every put under its identifier gave. */
  lemma HitsHaveTheirBytes(ops: seq<Op>, states: seq<Store>, id: string, faults: set<Fault>, bodyOf: string -> string)
    requires Run(ops, states) && forall op :: op in ops ==> Addressed(op, bodyOf)
    requires RightBodies(states[0], bodyOf)
    ensures
      var a, u := GetAnswer(states[|ops|], id, faults), states[|ops|];
      a.Hit? ==>
        && a.entry.output in Pick(u, a.entry.holder).objects
        && Pick(u, a.entry.holder).objects[a.entry.output].body == bodyOf(a.entry.output)
        && a.entry.size == |bodyOf(a.entry.output)|
  {
    RunKeepsBodies(ops, states, bodyOf);
    var a := GetAnswer(states[|ops|], id, faults);
    if a.Hit? {
      HitIsRecorded(states[|ops|], id, faults);
    }
  }

  /** The layer that answers has the bytes that were put. */
  ghost predicate Delivers(u: Store, a: Answer, body: string)
  {
    a.Hit? && a.entry.output in Pick(u, a.entry.holder).objects && Pick(u, a.entry.holder).objects[a.entry.output].body == body
  }

  /** The hypothesis over a put and what follows it. */
  ghost predicate AddressedRun(s: Store, q: Request, ops: seq<Op>, bodyOf: string -> string)
  {
    RightBodies(s, bodyOf) && Addressed(Put(q), bodyOf) && forall op :: op in ops ==> Addressed(op, bodyOf)
  }

  /** Without that hypothesis one put can break the base: it replaces an object another action names. */
  lemma SizesMustAgree()
    ensures exists s: Store, q: Request :: Complete(s.base) && PutStep(s, q).1.Some? && !Complete(PutStep(s, q).0.base)
  {
    var d := Disk(map["a1" := ActionFile(Some(Record("b1", 0, None)), 0)], map["b1" := ObjectFile("", 0)]);
    var s := Store(Disk(map[], map[]), d);
    var q := Request("a2", "b1", "x", 1, None, 0, true, {}, Written, Written);
    assert Complete(s.base) && PutStep(s, q).1.Some?;
    assert Readable(PutStep(s, q).0.base, "a1");
    assert !Complete(PutStep(s, q).0.base);
  }

  ghost predicate LeavesBase(op: Op)
  {
    (op.Put? ==> !op.request.persist) && (op.Collect? ==> op.source == Scratch)
  }

  /** Runs that never persist and never collect the base leave its contents as they were. */
  lemma {:induction false} BaseUntouched(ops: seq<Op>, states: seq<Store>)
    requires Run(ops, states) && forall op :: op in ops ==> LeavesBase(op)
    ensures SameContents(states[0].base, states[|ops|].base)
    decreases |ops|
  {
    if ops != [] {
      assert LeavesBase(ops[0]);
      assert SameContents(states[0].base, states[1].base);
      BaseUntouched(ops[1..], states[1..]);
    }
  }

  /** Only puts for an action, and collections, remove or change its record or lose its object. */
  ghost predicate Spares(op: Op, id: string)
  {
    !op.Collect? && (op.Put? ==> op.request.id != id)
  }

  /** One of the layers holds the object that the record names. */
  ghost predicate AtHand(s: Store, r: Record)
  {
    Holds(s.scratch, r.output, r.size) || Holds(s.base, r.output, r.size)
  }

  /** The scratch layer's record of the action, with its object at hand. */
  ghost predicate Served(s: Store, id: string, r: Record)
  {
    Readable(s.scratch, id) && s.scratch.actions[id].contents == Some(r) && AtHand(s, r)
  }

  lemma StepKeepsServed(s: Store, op: Op, t: Store, id: string, r: Record, sizeOf: string -> int)
    requires Next(s, op, t) && Sized(op, sizeOf) && Spares(op, id)
    requires RightSizes(s.scratch, sizeOf) && RightSizes(s.base, sizeOf)
    requires Served(s, id, r)
    ensures Served(t, id, r)
  {
  }

  lemma {:induction false} RunKeepsServed(ops: seq<Op>, states: seq<Store>, id: string, r: Record, sizeOf: string -> int)
    requires Run(ops, states) && forall op :: op in ops ==> Sized(op, sizeOf) && Spares(op, id)
    requires RightSizes(states[0].scratch, sizeOf) && RightSizes(states[0].base, sizeOf)
    requires Served(states[0], id, r)
    ensures Served(states[|ops|], id, r)
    decreases |ops|
  {
    if ops != [] {
      StepKeepsSizes(states[0], ops[0], states[1], sizeOf);
      StepKeepsServed(states[0], ops[0], states[1], id, r, sizeOf);
      RunKeepsServed(ops[1..], states[1..], id, r, sizeOf);
    }
  }

  /** A non-persisting put that succeeds is what every later get of the action returns, through any
      gets and puts for other actions; faults when reading can only make the get fail.  When identifiers
      determine bytes, the object is the one put. */
  lemma PutIsWhatGetReturns(s: Store, q: Request, ops: seq<Op>, states: seq<Store>, faults: set<Fault>,
                            sizeOf: string -> int, bodyOf: string -> string)
    requires !q.persist && PutStep(s, q).1.Some? && q.size == sizeOf(q.output)
    requires RightSizes(s.scratch, sizeOf) && RightSizes(s.base, sizeOf)
    requires Run(ops, states) && states[0] == PutStep(s, q).0
    requires forall op :: op in ops ==> Sized(op, sizeOf) && Spares(op, q.id)
    ensures
      var a := GetAnswer(states[|ops|], q.id, faults);
      a.Error? || (a.Hit? && a.source == Scratch && a.entry.(holder := Scratch) == Entry(q.output, q.size, q.now, Scratch))
    ensures faults == {} ==> GetAnswer(states[|ops|], q.id, faults).Hit?
    ensures
      var a := GetAnswer(states[|ops|], q.id, faults);
      AddressedRun(s, q, ops, bodyOf) && a.Hit? ==> Delivers(states[|ops|], a, q.body)
  {
    var r := Record(q.output, q.size, q.now);
    if AddressedRun(s, q, ops, bodyOf) {
      StepKeepsBodies(s, Put(q), states[0], bodyOf);
      HitsHaveTheirBytes(ops, states, q.id, faults, bodyOf);
    }
    StepKeepsSizes(s, Put(q), states[0], sizeOf);
    assert Served(states[0], q.id, r);
    RunKeepsServed(ops, states, q.id, r, sizeOf);
  }

  /** The record a put writes, and the one an entry shows. */
  function PutRecord(q: Request): Record
  {
    Record(q.output, q.size, q.now)
  }

  function Shown(e: Entry): Record
  {
    Record(e.output, e.size, e.time)
  }

  /** The put finds the object in neither layer it asks, and writes it. */
  ghost predicate WritesObject(s: Store, q: Request)
  {
    && Holder(s, q).Nowhere? && q.id != "" && q.output != "" && TargetStatFails !in q.faults
    && 0 <= q.size == |q.body| && q.objectWrite.Written?
  }

  /** The step stores the object that the record names. */
  ghost predicate Stores(s: Store, op: Op, r: Record)
  {
    op.Put? && op.request.output == r.output && op.request.size == r.size && WritesObject(s, op.request)
  }

  /** A readable scratch record of the action that is not the one put, whose object is at hand when the
      put starts, is the object put, or is stored by a later step. */
  ghost predicate Shadowed(s: Store, q: Request, ops: seq<Op>, states: seq<Store>)
    requires |states| == |ops| + 1
  {
    && Readable(s.scratch, q.id)
    && var r := s.scratch.actions[q.id].contents.value;
       && r != PutRecord(q)
       && (AtHand(s, r) || (r.output == q.output && r.size == q.size) || exists i :: 0 <= i < |ops| && Stores(states[i], ops[i], r))
  }

  /** An object comes to hand when a put stores it, and in no other way. */
  lemma StepAtHand(s: Store, op: Op, t: Store, r: Record, sizeOf: string -> int)
    requires Next(s, op, t) && Sized(op, sizeOf) && !op.Collect?
    requires RightSizes(s.scratch, sizeOf) && RightSizes(s.base, sizeOf)
    ensures AtHand(t, r) <==> AtHand(s, r) || Stores(s, op, r)
  {
  }

  /** No step but a put for the action, or a collection, changes what the layers record of it. */
  ghost predicate SameRecord(a: Disk, b: Disk, id: string)
  {
    && (Readable(a, id) <==> Readable(b, id))
    && (Readable(a, id) ==> a.actions[id].contents == b.actions[id].contents)
  }

  lemma StepKeepsRecords(s: Store, op: Op, t: Store, id: string)
    requires Next(s, op, t) && Spares(op, id)
    ensures SameRecord(s.scratch, t.scratch, id) && SameRecord(s.base, t.base, id)
  {
  }

  lemma {:induction false} RunKeepsRecords(ops: seq<Op>, states: seq<Store>, id: string)
    requires Run(ops, states) && forall op :: op in ops ==> Spares(op, id)
    ensures SameRecord(states[0].scratch, states[|ops|].scratch, id) && SameRecord(states[0].base, states[|ops|].base, id)
    decreases |ops|
  {
    if ops != [] {
      StepKeepsRecords(states[0], ops[0], states[1], id);
      RunKeepsRecords(ops[1..], states[1..], id);
    }
  }

  /** Over a run without collections, the objects at hand are those of the start and those stored. */
  lemma {:induction false} RunAtHand(ops: seq<Op>, states: seq<Store>, r: Record, sizeOf: string -> int)
    requires Run(ops, states) && forall op :: op in ops ==> Sized(op, sizeOf) && !op.Collect?
    requires RightSizes(states[0].scratch, sizeOf) && RightSizes(states[0].base, sizeOf)
    ensures AtHand(states[|ops|], r) <==> AtHand(states[0], r) || exists i :: 0 <= i < |ops| && Stores(states[i], ops[i], r)
    decreases |ops|
  {
    hide Next, AtHand, Stores, RightSizes;
    if ops != [] {
      var rest, after := ops[1..], states[1..];
      assert Next(states[0], ops[0], states[1]);
      StepKeepsSizes(states[0], ops[0], states[1], sizeOf);
      StepAtHand(states[0], ops[0], states[1], r, sizeOf);
      RunAtHand(rest, after, r, sizeOf);
      if i :| 0 <= i < |ops| && Stores(states[i], ops[i], r) && i > 0 {
        assert Stores(after[i - 1], rest[i - 1], r);
      }
      if i :| 0 <= i < |rest| && Stores(after[i], rest[i], r) {
        assert Stores(states[i + 1], ops[i + 1], r);
      }
    }
  }

  /** A failing read can only turn an answer into an error. */
  lemma FaultsOnlyFail(s: Store, id: string, faults: set<Fault>)
    ensures GetAnswer(s, id, faults).Error? || GetAnswer(s, id, faults) == GetAnswer(s, id, {})
  {
  }

  /** A persisting put that succeeds is what a later get of the action returns, output, size and time,
      exactly when no record shadows it.  The shadow is on the store before the put and on what the
      steps after it store: gets, and puts for other actions by any process.  When identifiers determine
      bytes, the object is then the one put. */
  lemma PersistedUnlessShadowed(s: Store, q: Request, ops: seq<Op>, states: seq<Store>, faults: set<Fault>,
                                sizeOf: string -> int, bodyOf: string -> string)
    requires q.persist && PutStep(s, q).1.Some? && q.size == sizeOf(q.output)
    requires RightSizes(s.scratch, sizeOf) && RightSizes(s.base, sizeOf)
    requires Run(ops, states) && states[0] == PutStep(s, q).0
    requires forall op :: op in ops ==> Sized(op, sizeOf) && Spares(op, q.id)
    ensures
      var a := GetAnswer(states[|ops|], q.id, faults);
      a.Error? || (a.Hit? && (Shown(a.entry) == PutRecord(q) <==> !Shadowed(s, q, ops, states)))
    ensures faults == {} ==> GetAnswer(states[|ops|], q.id, faults).Hit?
    ensures
      var a := GetAnswer(states[|ops|], q.id, faults);
      AddressedRun(s, q, ops, bodyOf) && a.Hit? && !Shadowed(s, q, ops, states) ==> Delivers(states[|ops|], a, q.body)
  {
    var t, u := states[0], states[|ops|];
    if AddressedRun(s, q, ops, bodyOf) {
      StepKeepsBodies(s, Put(q), states[0], bodyOf);
      HitsHaveTheirBytes(ops, states, q.id, faults, bodyOf);
    }
    StepKeepsSizes(s, Put(q), t, sizeOf);
    assert Readable(t.base, q.id) && t.base.actions[q.id].contents == Some(PutRecord(q)) && t.scratch == s.scratch;
    assert Holds(t.base, q.output, q.size);
    RunKeepsRecords(ops, states, q.id);
    RunAtHand(ops, states, PutRecord(q), sizeOf);
    FaultsOnlyFail(u, q.id, faults);
    if Readable(s.scratch, q.id) {
      var r := s.scratch.actions[q.id].contents.value;
      assert AtHand(t, r) <==> AtHand(s, r) || (r.output == q.output && r.size == q.size);
      RunAtHand(ops, states, r, sizeOf);
    }
  }

  /** Such a shadow: the base takes the new output, and the next get still serves the old one. */
  lemma ShadowExists()
    ensures exists s: Store, q: Request ::
      && q.persist && PutStep(s, q).1.Some?
      && var a := GetAnswer(PutStep(s, q).0, q.id, {});
         a.Hit? && a.entry.output != q.output
  {
    var d := Disk(map["a1" := ActionFile(Some(Record("b1", 0, None)), 0)], map["b1" := ObjectFile("", 0)]);
    var s := Store(d, Disk(map[], map[]));
    var q := Request("a1", "b2", "", 0, None, 0, true, {}, Written, Written);
    assert PutStep(s, q).1.Some?;
    var a := GetAnswer(PutStep(s, q).0, q.id, {});
    assert a.Hit? && a.entry.output != q.output;
  }
}
