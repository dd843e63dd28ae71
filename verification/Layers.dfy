/** The two-layer build cache (internal/buildcache/layers.go over layer.go).  An identifier is the
    lower-case hexadecimal name of its file.  A scratch layer is private to a run; the base layer is
    shared and written only by a persisting run. */
module Layers {
  import opened Wrappers
  import opened Ordering
  import Collector

  datatype Source = Scratch | Base

  datatype Record = Record(output: string, size: int, time: Option<int>)

  /** `contents` is None when the file does not hold a record. */
  datatype ActionFile = ActionFile(contents: Option<Record>, modified: int)

  datatype ObjectFile = ObjectFile(body: string, modified: int)

  datatype Disk = Disk(actions: map<string, ActionFile>, objects: map<string, ObjectFile>)

  datatype Store = Store(scratch: Disk, base: Disk)

  datatype Entry = Entry(output: string, size: int, time: Option<int>, holder: Source)

  datatype Answer = Hit(entry: Entry, source: Source) | Miss | Error

  /** How the replacement of a file ends: in place, with the old file as it was, or with the old file
      removed and the new one not in its place (layer.go, publish). */
  datatype Write = Written | Untouched | Lost

  datatype Fault = ReadFails(of: Source) | StatFails(layer: Source, holder: Source) | TargetStatFails | TouchFails

  datatype Request = Request(id: string, output: string, body: string, size: int, now: Option<int>, clock: int,
                             persist: bool, faults: set<Fault>, objectWrite: Write, actionWrite: Write)

  const BASE_TOUCH_INTERVAL: int := 3_600_000_000_000
  const SCRATCH_TOUCH_INTERVAL: int := 60_000_000_000

  function TouchInterval(source: Source): int
  {
    if source == Scratch then SCRATCH_TOUCH_INTERVAL else BASE_TOUCH_INTERVAL
  }

  function Pick(s: Store, source: Source): Disk
  {
    if source == Scratch then s.scratch else s.base
  }

  function With(s: Store, source: Source, d: Disk): Store
  {
    if source == Scratch then s.(scratch := d) else s.(base := d)
  }

  function Target(persist: bool): Source
  {
    if persist then Base else Scratch
  }

  predicate Readable(d: Disk, id: string)
  {
    id != "" && id in d.actions && d.actions[id].contents.Some? &&
    d.actions[id].contents.value.output != "" && d.actions[id].contents.value.size >= 0
  }

  predicate Holds(d: Disk, output: string, size: int)
  {
    output != "" && output in d.objects && |d.objects[output].body| == size
  }

  /** Ask the layers in turn for an object of the recorded size. */
  function FromHolders(s: Store, source: Source, r: Record, faults: set<Fault>): Answer
  {
    if r.output != "" && StatFails(source, Scratch) in faults then Error
    else if Holds(s.scratch, r.output, r.size) then Hit(Entry(r.output, r.size, r.time, Scratch), source)
    else if r.output != "" && StatFails(source, Base) in faults then Error
    else if Holds(s.base, r.output, r.size) then Hit(Entry(r.output, r.size, r.time, Base), source)
    else Miss
  }

  function FromSource(s: Store, source: Source, id: string, faults: set<Fault>): Answer
  {
    if id == "" then Miss
    else if ReadFails(source) in faults then Error
    else if !Readable(Pick(s, source), id) then Miss
    else FromHolders(s, source, Pick(s, source).actions[id].contents.value, faults)
  }

  function GetAnswer(s: Store, id: string, faults: set<Fault>): Answer
  {
    var first := FromSource(s, Scratch, id, faults);
    if first.Miss? then FromSource(s, Base, id, faults) else first
  }

  function Touched(d: Disk, source: Source, id: string, now: Option<int>, faults: set<Fault>): Disk
    requires id in d.actions
  {
    if now.None? || now.value - d.actions[id].modified < TouchInterval(source) || TouchFails in faults then d
    else d.(actions := d.actions[id := d.actions[id].(modified := now.value)])
  }

  lemma HitIsRecorded(s: Store, id: string, faults: set<Fault>)
    requires GetAnswer(s, id, faults).Hit?
    ensures
      var a := GetAnswer(s, id, faults);
      && Readable(Pick(s, a.source), id)
      && Pick(s, a.source).actions[id].contents == Some(Record(a.entry.output, a.entry.size, a.entry.time))
      && Holds(Pick(s, a.entry.holder), a.entry.output, a.entry.size)
  {
  }

  function GetStep(s: Store, id: string, now: Option<int>, faults: set<Fault>): Store
  {
    var a := GetAnswer(s, id, faults);
    if !a.Hit? then s else
      HitIsRecorded(s, id, faults);
      With(s, a.source, Touched(Pick(s, a.source), a.source, id, now, faults))
  }

  /** The same contents, whatever the times of the action files. */
  ghost predicate SameContents(a: Disk, b: Disk)
  {
    && a.objects == b.objects
    && a.actions.Keys == b.actions.Keys
    && (forall id :: id in a.actions ==> a.actions[id].contents == b.actions[id].contents)
  }

  /** The action's file counts as used: its time is not a touch interval in the past, unless there is no
      clock or the touch fails; no other file's time moves. */
  ghost predicate RecentlyUsed(before: Store, after: Store, source: Source, id: string, now: Option<int>, faults: set<Fault>)
  {
    && id in Pick(before, source).actions && id in Pick(after, source).actions
    && (now.Some? && TouchFails !in faults ==>
         now.value - Pick(after, source).actions[id].modified < if source.Base? then 3_600_000_000_000 else 60_000_000_000)
    && (Pick(after, source).actions[id].modified == Pick(before, source).actions[id].modified ||
        now == Some(Pick(after, source).actions[id].modified))
    && (forall s: Source, other: string :: other in Pick(after, s).actions && (s != source || other != id) ==>
         other in Pick(before, s).actions && Pick(after, s).actions[other] == Pick(before, s).actions[other])
  }

  /** What a put leaves in the layer it writes: on success the record and an object of the size, which is
      the one given when no asked layer held it; on failure either file may be missing, but none is
      anything else than it was or than was given; and whatever happens, nothing else changes. */
  ghost predicate PutLeaves(before: Store, after: Store, q: Request, entry: Option<Entry>)
  {
    var was, now := Pick(before, Target(q.persist)), Pick(after, Target(q.persist));
    && Pick(after, Target(!q.persist)) == Pick(before, Target(!q.persist))
    && SameActions(was, now, q.id) && SameObjects(was, now, q.output)
    && (entry.Some? ==>
         && entry.value.output == q.output && entry.value.size == q.size && entry.value.time == q.now
         && q.id in now.actions && now.actions[q.id] == ActionFile(Some(Record(q.output, q.size, q.now)), q.clock)
         && (entry.value.holder == Target(q.persist) || (entry.value.holder.Base? && !InScratch(before, q)))
         && q.output in Pick(after, entry.value.holder).objects
         && |Pick(after, entry.value.holder).objects[q.output].body| == q.size)
    && (entry.Some? && NoneHolds(before, q) ==>
         && entry.value.holder == Target(q.persist) && q.output in now.objects
         && now.objects[q.output] == ObjectFile(q.body, q.clock))
    && (!NoneHolds(before, q) ==> now.objects == was.objects)
    && (q.output in now.objects && now.objects[q.output] != ObjectFile(q.body, q.clock) ==>
         q.output in was.objects && now.objects[q.output] == was.objects[q.output])
    && (q.id in now.actions && now.actions[q.id] != ActionFile(Some(Record(q.output, q.size, q.now)), q.clock) ==>
         q.id in was.actions && now.actions[q.id] == was.actions[q.id])
    && (entry.Some? <==> Succeeds(before, q))
  }

  /** A put that does not persist finds the object in the scratch layer. */
  ghost predicate InScratch(s: Store, q: Request)
  {
    !q.persist && q.output in s.scratch.objects && |s.scratch.objects[q.output].body| == q.size
  }

  /** A put succeeds when every layer it asks can be asked, an object is there or can be written in the size
      given, and the record is written. */
  ghost predicate Succeeds(s: Store, q: Request)
  {
    && q.id != "" && q.output != "" && q.actionWrite.Written?
    && (q.persist || StatFails(Scratch, Scratch) !in q.faults)
    && (InScratch(s, q) || StatFails(Scratch, Base) !in q.faults)
    && (NoneHolds(s, q) ==> q.size >= 0 && TargetStatFails !in q.faults && |q.body| == q.size && q.objectWrite.Written?)
  }

  /** No layer the put asks has an object of this name and size: a persisting put asks the base alone. */
  ghost predicate NoneHolds(s: Store, q: Request)
  {
    && !(q.output in s.base.objects && |s.base.objects[q.output].body| == q.size)
    && (q.persist || !(q.output in s.scratch.objects && |s.scratch.objects[q.output].body| == q.size))
  }

  ghost predicate SameActions(a: Disk, b: Disk, id: string)
  {
    && (forall other :: other != id ==> (other in b.actions <==> other in a.actions))
    && (forall other :: other != id && other in a.actions ==> b.actions[other] == a.actions[other])
  }

  ghost predicate SameObjects(a: Disk, b: Disk, output: string)
  {
    && (forall o :: o != output ==> (o in b.objects <==> o in a.objects))
    && (forall o :: o != output && o in a.objects ==> b.objects[o] == a.objects[o])
  }

  lemma PutActionLeaves(d: Disk, q: Request)
    ensures
      var (after, ok) := PutAction(d, q);
      && after.objects == d.objects && SameActions(d, after, q.id)
      && (ok <==> q.id != "" && q.actionWrite.Written?)
      && (!ok && q.id in after.actions ==> q.id in d.actions && after.actions[q.id] == d.actions[q.id])
      && (ok ==> q.id in after.actions && after.actions[q.id] == ActionFile(Some(Record(q.output, q.size, q.now)), q.clock))
  {
  }

  lemma WriteObjectLeaves(d: Disk, q: Request)
    ensures
      var (after, ok) := WriteObject(d, q);
      && after.actions == d.actions && SameObjects(d, after, q.output)
      && (ok <==> |q.body| == q.size && q.objectWrite.Written?)
      && (!ok && q.output in after.objects ==> q.output in d.objects && after.objects[q.output] == d.objects[q.output])
      && (ok ==> q.output in after.objects && after.objects[q.output] == ObjectFile(q.body, q.clock))
  {
  }

  lemma HolderIs(s: Store, q: Request)
    ensures Holder(s, q).HeldBy? ==> !NoneHolds(s, q) && q.output != "" && Holds(Pick(s, Holder(s, q).holder), q.output, q.size)
    ensures Holder(s, q).Nowhere? ==> q.output == "" || NoneHolds(s, q)
    ensures Holder(s, q).HeldBy? && Holder(s, q).holder.Base? ==> !InScratch(s, q)
    ensures Holder(s, q).HeldBy? && q.persist ==> Holder(s, q).holder.Base?
    ensures q.output != "" ==>
      var askable := (q.persist || StatFails(Scratch, Scratch) !in q.faults) &&
                     (InScratch(s, q) || StatFails(Scratch, Base) !in q.faults);
      Holder(s, q).Unknown? <==> !askable
  {
  }

  lemma PutStepLeaves(s: Store, q: Request)
    ensures PutLeaves(s, PutStep(s, q).0, q, PutStep(s, q).1)
  {
    var target := Pick(s, Target(q.persist));
    HolderIs(s, q);
    PutActionLeaves(target, q);
    WriteObjectLeaves(target, q);
    PutActionLeaves(WriteObject(target, q).0, q);
    hide PutAction, WriteObject, Holder;
  }

  /** Write the action file of a layer.  An empty identifier has no path. */
  function PutAction(d: Disk, q: Request): (Disk, bool)
  {
    if q.id == "" then (d, false)
    else match q.actionWrite
      case Written =>
        (d.(actions := d.actions[q.id := ActionFile(Some(Record(q.output, q.size, q.now)), q.clock)]), true)
      case Untouched => (d, false)
      case Lost => (d.(actions := d.actions - {q.id}), false)
  }

  function WriteObject(d: Disk, q: Request): (Disk, bool)
  {
    if |q.body| != q.size then (d, false)
    else match q.objectWrite
      case Written => (d.(objects := d.objects[q.output := ObjectFile(q.body, q.clock)]), true)
      case Untouched => (d, false)
      case Lost => (d.(objects := d.objects - {q.output}), false)
  }

  function LayerPut(d: Disk, q: Request): (Disk, Option<Entry>)
  {
    if q.id == "" || q.output == "" || q.size < 0 || TargetStatFails in q.faults then (d, None)
    else
      var (written, stored) := if Holds(d, q.output, q.size) then (d, true) else WriteObject(d, q);
      if !stored then (written, None) else
        var (after, ok) := PutAction(written, q);
        (after, if ok then Some(Entry(q.output, q.size, q.now, Target(q.persist))) else None)
  }

  datatype Held = HeldBy(holder: Source) | Nowhere | Unknown

  /** The first layer that already holds the object; a persisting put asks the base alone. */
  function Holder(s: Store, q: Request): Held
  {
    if !q.persist && q.output != "" && StatFails(Scratch, Scratch) in q.faults then Unknown
    else if !q.persist && Holds(s.scratch, q.output, q.size) then HeldBy(Scratch)
    else if q.output != "" && StatFails(Scratch, Base) in q.faults then Unknown
    else if Holds(s.base, q.output, q.size) then HeldBy(Base)
    else Nowhere
  }

  function PutStep(s: Store, q: Request): (Store, Option<Entry>)
  {
    var target := Target(q.persist);
    match Holder(s, q)
    case Unknown => (s, None)
    case HeldBy(holder) =>
      var (d, ok) := PutAction(Pick(s, target), q);
      (With(s, target, d), if ok then Some(Entry(q.output, q.size, q.now, holder)) else None)
    case Nowhere =>
      var (d, entry) := LayerPut(Pick(s, target), q);
      (With(s, target, d), entry)
  }

  /** The name an action file counts a reference to. */
  function OutputOf(f: ActionFile): string
  {
    if f.contents.Some? then f.contents.value.output else ""
  }

  function AsAction(id: string, f: ActionFile): Collector.File
  {
    Collector.File(id, OutputOf(f), 0, f.modified)
  }

  function AsObject(output: string, f: ObjectFile): Collector.File
  {
    Collector.File(output, "", |f.body|, f.modified)
  }

  /** What a collection may do to a layer: it only removes files, and no object that an action left
      on the disk names. */
  ghost predicate Collects(before: Disk, after: Disk)
  {
    && (forall id :: id in after.actions ==> id in before.actions && after.actions[id] == before.actions[id])
    && (forall o :: o in after.objects ==> o in before.objects && after.objects[o] == before.objects[o])
    && (forall id :: id in after.actions ==>
         var o := OutputOf(after.actions[id]); o in before.objects ==> o in after.objects)
  }

  /** The listing of a layer, in any order. */
  ghost predicate Listing(d: Disk, files: seq<Collector.File>, objects: seq<Collector.File>)
  {
    && (forall f :: f in files ==> f.name in d.actions && f == AsAction(f.name, d.actions[f.name]))
    && (forall id :: id in d.actions ==> AsAction(id, d.actions[id]) in files)
    && (forall f :: f in objects ==> f.name in d.objects && f == AsObject(f.name, d.objects[f.name]))
    && (forall o :: o in d.objects ==> AsObject(o, d.objects[o]) in objects)
    && Collector.DistinctNames(files) && Collector.DistinctNames(objects)
  }

  /** Removing what a sweep dropped and erased is a collection of the layer. */
  lemma RemovalCollects(d: Disk, files: seq<Collector.File>, objects: seq<Collector.File>, order: seq<Collector.File>,
                        dropped: nat, p: Collector.Policy, now: Option<int>, gone: set<string>, erased: set<string>)
    requires Listing(d, files, objects) && (forall f :: f in order <==> f in files) && dropped <= |order|
    requires gone == set i | 0 <= i < dropped :: order[i].name
    requires forall o :: o in erased ==>
      exists j :: 0 <= j < |objects| && objects[j].name == o && Collector.Gone(p, now, order[dropped..], objects, j)
    ensures Collects(d, Disk(d.actions - gone, d.objects - erased))
  {
    forall id | id in d.actions && id !in gone ensures OutputOf(d.actions[id]) !in erased {
      var f := AsAction(id, d.actions[id]);
      assert f in order;
      var i :| 0 <= i < |order| && order[i] == f;
      assert order[dropped..][i - dropped] == f;
      Collector.NamedMember(order[dropped..], f.output);
    }
  }

  /** What a complete sweep leaves is needed. */
  lemma LeftIsNeeded(d: Disk, files: seq<Collector.File>, objects: seq<Collector.File>, order: seq<Collector.File>,
                     dropped: nat, p: Collector.Policy, now: Option<int>, gone: set<string>, j: nat)
    requires Listing(d, files, objects) && multiset(order) == multiset(files) && dropped <= |order| && j < |objects|
    requires gone == set i | 0 <= i < dropped :: order[i].name
    requires !Collector.Gone(p, now, order[dropped..], objects, j)
    ensures Collector.Young(p, now, objects[j]) ||
            exists id :: id in d.actions && id !in gone && OutputOf(d.actions[id]) == objects[j].name
  {
    Collector.StaysIffNeeded(p, now, order[dropped..], objects, j);
    if !Collector.Young(p, now, objects[j]) {
      var k :| 0 <= k < |order[dropped..]| && order[dropped..][k].output == objects[j].name;
      var f := order[dropped + k];
      SameMembers(order, files);
      Collector.NamesPermute(files, order);
      assert f.name in d.actions && f.name !in gone && OutputOf(d.actions[f.name]) == objects[j].name;
    }
  }

  class Layer {
    const source: Source
    var actions: map<string, ActionFile>
    var objects: map<string, ObjectFile>

    constructor (source: Source, d: Disk)
      ensures this.source == source && View() == d
    {
      this.source := source;
      actions, objects := d.actions, d.objects;
    }

    function View(): Disk
      reads this
    {
      Disk(actions, objects)
    }

    method ReadAction(id: string, faults: set<Fault>) returns (failed: bool, record: Option<Record>)
      ensures failed <==> id != "" && ReadFails(source) in faults
      ensures record.Some? <==> !failed && Readable(View(), id)
      ensures record.Some? ==> record == actions[id].contents
    {
      record := None;
      failed := false;
      if id == "" {
        return;
      }
      if ReadFails(source) in faults {
        return true, None;
      }
      if id !in actions || actions[id].contents.None? {
        return;
      }
      var r := actions[id].contents.value;
      if r.output == "" || r.size < 0 {
        return;
      }
      record := Some(r);
    }

    method Object(output: string, fails: bool) returns (failed: bool, size: Option<nat>)
      ensures failed <==> output != "" && fails
      ensures size.Some? <==> !failed && output != "" && output in objects
      ensures size.Some? ==> size.value == |objects[output].body|
    {
      failed, size := false, None;
      if output == "" {
        return;
      }
      if fails {
        return true, None;
      }
      if output in objects {
        size := Some(|objects[output].body|);
      }
    }

    method Touch(id: string, now: Option<int>, faults: set<Fault>)
      requires id in actions
      modifies this`actions
      ensures View() == Touched(old(View()), source, id, now, faults)
    {
      if now.None? || now.value - actions[id].modified < TouchInterval(source) || TouchFails in faults {
        return;
      }
      actions := actions[id := actions[id].(modified := now.value)];
    }

    method WriteAction(q: Request) returns (ok: bool)
      modifies this`actions
      ensures (View(), ok) == PutAction(old(View()), q)
    {
      if q.id == "" {
        return false;
      }
      match q.actionWrite
      case Written =>
        actions := actions[q.id := ActionFile(Some(Record(q.output, q.size, q.now)), q.clock)];
        return true;
      case Untouched =>
        return false;
      case Lost =>
        actions := actions - {q.id};
        return false;
    }

    method Put(q: Request) returns (entry: Option<Entry>)
      requires source == Target(q.persist)
      modifies this
      ensures (View(), entry) == LayerPut(old(View()), q)
    {
      entry := None;
      if q.id == "" || q.output == "" || q.size < 0 {
        return;
      }
      var failed, stored := Object(q.output, TargetStatFails in q.faults);
      if failed {
        return;
      }
      if stored.None? || stored.value != q.size {
        if |q.body| != q.size {
          return;
        }
        match q.objectWrite
        case Written =>
          objects := objects[q.output := ObjectFile(q.body, q.clock)];
        case Untouched =>
          return;
        case Lost =>
          objects := objects - {q.output};
          return;
      }
      var ok := WriteAction(q);
      if ok {
        entry := Some(Entry(q.output, q.size, q.now, source));
      }
    }

    method List() returns (files: seq<Collector.File>, stored: seq<Collector.File>)
      ensures Listing(View(), files, stored)
    {
      files, stored := [], [];
      var rest := actions.Keys;
      while rest != {}
        invariant rest <= actions.Keys
        invariant forall f :: f in files ==> f.name in actions && f == AsAction(f.name, actions[f.name])
        invariant forall f :: f in files ==> f.name !in rest
        invariant Collector.DistinctNames(files)
        invariant forall id :: id in actions && id !in rest ==> AsAction(id, actions[id]) in files
      {
        var id :| id in rest;
        files := files + [AsAction(id, actions[id])];
        rest := rest - {id};
      }
      var outputs := objects.Keys;
      while outputs != {}
        invariant outputs <= objects.Keys
        invariant forall f :: f in stored ==> f.name in objects && f == AsObject(f.name, objects[f.name])
        invariant forall f :: f in stored ==> f.name !in outputs
        invariant forall o :: o in objects && o !in outputs ==> AsObject(o, objects[o]) in stored
        invariant Collector.DistinctNames(stored)
      {
        var o :| o in outputs;
        stored := stored + [AsObject(o, objects[o])];
        outputs := outputs - {o};
      }
    }

    /** A collection, complete or cut short by a file that cannot be removed: `order` and `listed` are the
        layer's files, the actions by age, and the first `dropped` actions go.  When it is complete, the
        actions stop where the policy says, and an object is left exactly when it is young or named by an
        action left; whatever happens, no young file and no named object goes. */
    method Collect(policy: Collector.Policy, now: Option<int>, stuckActions: set<string>, stuckObjects: set<string>)
      returns (ok: bool, result: Collector.Collected, ghost order: seq<Collector.File>, ghost listed: seq<Collector.File>,
               ghost dropped: nat)
      modifies this
      ensures Collects(old(View()), View())
      ensures !Collector.ValidPolicy(policy) ==> !ok && View() == old(View())
      ensures Collector.ValidPolicy(policy) && stuckActions == {} && stuckObjects == {} ==> ok
      ensures ok ==> NothingIdle(View(), policy, now)
      ensures Listing(old(View()), order, listed) && Sorted(order, Collector.ByAge)
      ensures Collector.WentForAge(policy, now, order, listed, dropped)
      ensures actions == old(actions) - set i | 0 <= i < dropped :: order[i].name
      ensures forall o :: o in old(objects) && o !in objects ==> !Collector.Young(policy, now, AsObject(o, old(objects)[o]))
      ensures ok ==> Collector.LeftForAge(policy, now, order[dropped..], listed)
      ensures ok ==> Collector.StopsAt(policy, now, order, listed, dropped)
      ensures ok ==> result.after.entries == |order| - dropped
      ensures ok ==> result.after.bytes == Collector.Remaining(policy, now, order[dropped..], listed)
    {
      hide Collects, NothingIdle, Listing, Collector.ValidPolicy, Collector.WentForAge, Collector.LeftForAge, Collector.StopsAt,
        Collector.Gone, Collector.Remaining, Sorted, Collector.Young;
      var files, stored := List();
      var gone, erased;
      ok, result, gone, erased, order, dropped := Plan(View(), files, stored, policy, now, stuckActions, stuckObjects);
      listed := stored;
      if !Collector.ValidPolicy(policy) {
        assert actions - gone == actions && objects - erased == objects;
      }
      actions := actions - gone;
      objects := objects - erased;
    }
  }

  /** Every object of the layer is protected or named by an action of the layer. */
  ghost predicate NothingIdle(d: Disk, policy: Collector.Policy, now: Option<int>)
  {
    forall o :: o in d.objects ==>
      Collector.Young(policy, now, AsObject(o, d.objects[o])) || exists id :: id in d.actions && OutputOf(d.actions[id]) == o
  }

  /** Run the sweep over a listing, and name the files it takes off the disk. */
  method Plan(ghost d: Disk, files: seq<Collector.File>, stored: seq<Collector.File>, policy: Collector.Policy,
              now: Option<int>, stuckActions: set<string>, stuckObjects: set<string>)
    returns (ok: bool, result: Collector.Collected, gone: set<string>, erased: set<string>, ghost order: seq<Collector.File>,
             ghost dropped: nat)
    requires Listing(d, files, stored)
    ensures Collects(d, Disk(d.actions - gone, d.objects - erased))
    ensures !Collector.ValidPolicy(policy) ==> !ok && gone == {} && erased == {}
    ensures Collector.ValidPolicy(policy) && stuckActions == {} && stuckObjects == {} ==> ok
    ensures ok ==> NothingIdle(Disk(d.actions - gone, d.objects - erased), policy, now)
    ensures Listing(d, order, stored) && Sorted(order, Collector.ByAge)
    ensures Collector.WentForAge(policy, now, order, stored, dropped)
    ensures dropped <= |order| && gone == set i | 0 <= i < dropped :: order[i].name
    ensures forall o :: o in erased && o in d.objects ==> !Collector.Young(policy, now, AsObject(o, d.objects[o]))
    ensures ok ==> Collector.LeftForAge(policy, now, order[dropped..], stored)
    ensures ok ==> Collector.StopsAt(policy, now, order, stored, dropped)
    ensures ok ==> result.after.entries == |order| - dropped
    ensures ok ==> result.after.bytes == Collector.Remaining(policy, now, order[dropped..], stored)
  {
    hide Collects, Listing, NothingIdle, Collector.ValidPolicy, Collector.Gone, Collector.DroppedPrefix, Collector.Drops,
      Collector.WentForAge, Collector.LeftForAge, Collector.StopsAt, Collector.Remaining, Collector.Young, Collector.Meets,
      Collector.IsOldest, Sorted, Collector.ByAge, Collector.Total, Collector.Flagged;
    var sweep := new Collector.Sweep(policy, now, files, stored, stuckActions, stuckObjects);
    Collector.ByAgeIsTotalPreorder();
    SortSorted(files, Collector.ByAge);
    SortPermutes(files, Collector.ByAge);
    SortMembers(files, Collector.ByAge);
    ok, result := sweep.Collect();
    var sorted, count := sweep.order, sweep.dropped;
    order, dropped := sorted, count;
    ListingPermutes(d, files, order, stored);
    var flags := seq(|stored|, j requires 0 <= j < |stored| reads sweep requires |sweep.removed| == |stored| => j < sweep.swept && sweep.removed[j]);
    gone := set i | 0 <= i < count :: sorted[i].name;
    erased := set j | 0 <= j < |stored| && flags[j] :: stored[j].name;
    assert forall j :: 0 <= j < |stored| ==> flags[j] == sweep.Erased(j);
    RemovalCollects(d, files, stored, order, dropped, policy, now, gone, erased);
    ErasedAreOld(d, files, stored, policy, now, flags, erased);
    if ok {
      SweepIsComplete(d, files, stored, order, dropped, policy, now, gone, erased, flags);
    }
  }

  lemma ListingPermutes(d: Disk, files: seq<Collector.File>, order: seq<Collector.File>, objects: seq<Collector.File>)
    requires Listing(d, files, objects) && multiset(order) == multiset(files)
    ensures Listing(d, order, objects)
  {
    SameMembers(order, files);
    Collector.NamesPermute(files, order);
  }

  lemma ErasedAreOld(d: Disk, files: seq<Collector.File>, objects: seq<Collector.File>, p: Collector.Policy, now: Option<int>,
                     flags: seq<bool>, erased: set<string>)
    requires Listing(d, files, objects) && |flags| == |objects|
    requires erased == set j | 0 <= j < |objects| && flags[j] :: objects[j].name
    requires forall j :: 0 <= j < |objects| && flags[j] ==> !Collector.Young(p, now, objects[j])
    ensures forall o :: o in erased && o in d.objects ==> !Collector.Young(p, now, AsObject(o, d.objects[o]))
  {
    forall o | o in erased && o in d.objects ensures !Collector.Young(p, now, AsObject(o, d.objects[o])) {
      var j :| 0 <= j < |objects| && flags[j] && objects[j].name == o;
      assert objects[j] in objects;
    }
  }

  lemma SweepIsComplete(d: Disk, files: seq<Collector.File>, objects: seq<Collector.File>, order: seq<Collector.File>,
                        dropped: nat, p: Collector.Policy, now: Option<int>, gone: set<string>, erased: set<string>,
                        flags: seq<bool>)
    requires Listing(d, files, objects) && multiset(order) == multiset(files) && dropped <= |order|
    requires gone == set i | 0 <= i < dropped :: order[i].name
    requires |flags| == |objects| && erased == set j | 0 <= j < |objects| && flags[j] :: objects[j].name
    requires forall j :: 0 <= j < |objects| && Collector.Gone(p, now, order[dropped..], objects, j) ==> flags[j]
    ensures NothingIdle(Disk(d.actions - gone, d.objects - erased), p, now)
  {
    hide Collector.Gone, Collector.Young;
    var left := Disk(d.actions - gone, d.objects - erased);
    forall o | o in left.objects
      ensures Collector.Young(p, now, AsObject(o, left.objects[o])) ||
              exists id :: id in left.actions && OutputOf(left.actions[id]) == o
    {
      var j :| 0 <= j < |objects| && objects[j] == AsObject(o, d.objects[o]);
      LeftIsNeeded(d, files, objects, order, dropped, p, now, gone, j);
      if !Collector.Young(p, now, objects[j]) {
        var id :| id in d.actions && id !in gone && OutputOf(d.actions[id]) == objects[j].name;
        assert id in left.actions && OutputOf(left.actions[id]) == o;
      }
    }
  }

  class TwoLayers {
    const scratch: Layer
    const base: Layer

    ghost predicate Valid()
    {
      scratch != base && scratch.source == Scratch && base.source == Base
    }

    function View(): Store
      reads scratch, base
    {
      Store(scratch.View(), base.View())
    }

    constructor (s: Store)
      ensures Valid() && View() == s && fresh(scratch) && fresh(base)
    {
      scratch := new Layer(Scratch, s.scratch);
      base := new Layer(Base, s.base);
    }

    function LayerOf(source: Source): Layer
    {
      if source == Scratch then scratch else base
    }

    /** The source's record names an object: look for it in the layers, scratch first. */
    method FindObject(source: Source, r: Record, faults: set<Fault>) returns (a: Answer)
      requires Valid()
      ensures a == FromHolders(View(), source, r, faults)
    {
      var holders := [Scratch, Base];
      for i := 0 to 2
        invariant i == 1 ==> !(r.output != "" && StatFails(source, Scratch) in faults)
        invariant i == 1 ==> !Holds(View().scratch, r.output, r.size)
        invariant i == 2 ==> FromHolders(View(), source, r, faults) == Miss
      {
        var failed, size := LayerOf(holders[i]).Object(r.output, StatFails(source, holders[i]) in faults);
        if failed {
          return Error;
        }
        if size.None? || size.value != r.size {
          continue;
        }
        return Hit(Entry(r.output, r.size, r.time, holders[i]), source);
      }
      a := Miss;
    }

    /** A hit is backed by a record of the layer it names and by an object of the recorded size, and a
        get changes nothing but the time of an action file. */
    method Get(id: string, now: Option<int>, faults: set<Fault>) returns (a: Answer)
      requires Valid()
      modifies scratch, base
      ensures a == GetAnswer(old(View()), id, faults)
      ensures View() == GetStep(old(View()), id, now, faults)
      ensures SameContents(old(View()).scratch, View().scratch) && SameContents(old(View()).base, View().base)
      ensures a.Hit? ==>
        && id in Pick(View(), a.source).actions
        && Pick(View(), a.source).actions[id].contents == Some(Record(a.entry.output, a.entry.size, a.entry.time))
        && Holds(Pick(View(), a.entry.holder), a.entry.output, a.entry.size)
      ensures a.Hit? && a.entry.holder.Base? ==>
        a.entry.output !in old(scratch.objects) || |old(scratch.objects)[a.entry.output].body| != a.entry.size
      ensures a.Hit? ==> RecentlyUsed(old(View()), View(), a.source, id, now, faults)
    {
      var sources := [Scratch, Base];
      for i := 0 to 2
        invariant View() == old(View())
        invariant i == 1 ==> FromSource(View(), Scratch, id, faults) == Miss
        invariant i == 2 ==> GetAnswer(View(), id, faults) == Miss
      {
        var layer := LayerOf(sources[i]);
        var failed, record := layer.ReadAction(id, faults);
        if failed {
          return Error;
        }
        if record.None? {
          continue;
        }
        a := FindObject(sources[i], record.value, faults);
        if a.Miss? {
          continue;
        }
        if a.Hit? {
          layer.Touch(id, now, faults);
        }
        return;
      }
      a := Miss;
    }

    method Put(q: Request) returns (entry: Option<Entry>)
      requires Valid()
      modifies scratch, base
      ensures (View(), entry) == PutStep(old(View()), q)
      ensures PutLeaves(old(View()), View(), q, entry)
    {
      PutStepLeaves(View(), q);
      hide PutLeaves;
      var target := LayerOf(Target(q.persist));
      var holders := if q.persist then [Base] else [Scratch, Base];
      for i := 0 to |holders|
        invariant View() == old(View())
        invariant i == 1 && !q.persist ==> !(q.output != "" && StatFails(Scratch, Scratch) in q.faults)
        invariant i == 1 && !q.persist ==> !Holds(View().scratch, q.output, q.size)
        invariant i == |holders| ==> Holder(View(), q) == Nowhere
      {
        var failed, size := LayerOf(holders[i]).Object(q.output, StatFails(Scratch, holders[i]) in q.faults);
        if failed {
          return None;
        }
        if size.None? || size.value != q.size {
          continue;
        }
        var ok := target.WriteAction(q);
        return if ok then Some(Entry(q.output, q.size, q.now, holders[i])) else None;
      }
      entry := target.Put(q);
    }
  }
}
