/** The collector of one cache layer (internal/buildcache/layer.go, collectWithHooks): actions are
    dropped oldest first, by age and then by size, and an object goes with its last action. */
module Collector {
  import opened Wrappers
  import opened Ordering

  /** An action file, naming its output, or an object file. */
  datatype File = File(name: string, output: string, size: nat, modified: int)

  datatype Policy = Policy(maxBytes: int, ttl: int, minIdle: int)

  predicate ValidPolicy(p: Policy)
  {
    p.maxBytes >= 0 && p.ttl >= 0 && p.minIdle >= 0
  }

  predicate Protected(p: Policy, now: Option<int>, f: File)
  {
    p.minIdle > 0 && now.Some? && now.value - f.modified < p.minIdle
  }

  predicate Expired(p: Policy, now: Option<int>, f: File)
  {
    p.ttl > 0 && now.Some? && now.value - f.modified >= p.ttl
  }

  predicate ByAge(a: File, b: File)
  {
    a.modified < b.modified || (a.modified == b.modified && TextLe(a.name, b.name))
  }

  lemma ByAgeIsTotalPreorder()
    ensures TotalPreorder(ByAge)
  {
    forall a: File, b: File ensures ByAge(a, b) || ByAge(b, a) {
      TextLeTotal(a.name, b.name);
    }
    forall a: File, b: File, c: File | ByAge(a, b) && ByAge(b, c) ensures ByAge(a, c) {
      if a.modified == c.modified {
        TextLeTransitive(a.name, b.name, c.name);
      }
    }
  }

  /** How many of the actions name the output. */
  function Named(actions: seq<File>, output: string): nat
  {
    if actions == [] then 0 else (if actions[0].output == output then 1 else 0) + Named(actions[1..], output)
  }

  lemma {:induction false} NamedMember(actions: seq<File>, output: string)
    ensures Named(actions, output) > 0 <==> exists i :: 0 <= i < |actions| && actions[i].output == output
  {
    if actions != [] {
      NamedMember(actions[1..], output);
      if i :| 0 <= i < |actions| && actions[i].output == output {
        if i > 0 {
          assert actions[1..][i - 1].output == output;
        }
      }
      if j :| 0 <= j < |actions[1..]| && actions[1..][j].output == output {
        assert actions[j + 1].output == output;
      }
    }
  }

  /** No later object bears the name of this one; file names below one layer normally make this so. */
  predicate Latest(objects: seq<File>, j: nat)
    requires j < |objects|
  {
    forall k :: j < k < |objects| ==> objects[k].name != objects[j].name
  }

  /** The object is to go when only these actions survive. */
  predicate Gone(p: Policy, now: Option<int>, survivors: seq<File>, objects: seq<File>, j: nat)
    requires j < |objects|
  {
    !Protected(p, now, objects[j]) && Named(survivors, objects[j].name) == 0 && Latest(objects, j)
  }

  function GoneFlags(p: Policy, now: Option<int>, survivors: seq<File>, objects: seq<File>): (flags: seq<bool>)
    ensures |flags| == |objects| && forall j :: 0 <= j < |objects| ==> flags[j] == Gone(p, now, survivors, objects, j)
  {
    seq(|objects|, j requires 0 <= j < |objects| => Gone(p, now, survivors, objects, j))
  }

  /** The bytes of the objects that are not flagged. */
  function Kept(objects: seq<File>, flags: seq<bool>): nat
    requires |objects| == |flags|
  {
    if objects == [] then 0 else (if flags[0] then 0 else objects[0].size) + Kept(objects[1..], flags[1..])
  }

  function Total(objects: seq<File>): nat
  {
    if objects == [] then 0 else objects[0].size + Total(objects[1..])
  }

  /** The bytes left when only these actions survive. */
  function Remaining(p: Policy, now: Option<int>, survivors: seq<File>, objects: seq<File>): nat
  {
    Kept(objects, GoneFlags(p, now, survivors, objects))
  }

  lemma {:induction false} KeptFlag(objects: seq<File>, flags: seq<bool>, j: nat)
    requires |objects| == |flags| && j < |objects| && !flags[j]
    ensures Kept(objects, flags[j := true]) == Kept(objects, flags) - objects[j].size
  {
    if j == 0 {
      assert flags[0 := true][1..] == flags[1..];
    } else {
      assert flags[j := true][1..] == flags[1..][j - 1 := true];
      KeptFlag(objects[1..], flags[1..], j - 1);
    }
  }

  lemma {:induction false} KeptAll(objects: seq<File>, flags: seq<bool>)
    requires |objects| == |flags| && forall j :: 0 <= j < |flags| ==> !flags[j]
    ensures Kept(objects, flags) == Total(objects)
  {
    if objects != [] {
      KeptAll(objects[1..], flags[1..]);
    }
  }

  /** The action goes, given the actions from it on: it is unprotected, and either too old or in
      the way of the size limit. */
  predicate Drops(p: Policy, now: Option<int>, from: seq<File>, objects: seq<File>)
    requires from != []
  {
    !Protected(p, now, from[0]) &&
    (Expired(p, now, from[0]) || (p.maxBytes > 0 && Remaining(p, now, from, objects) > p.maxBytes))
  }

  /** What a collection amounts to: the first `dropped` actions in age order went, each for a reason. */
  ghost predicate DroppedPrefix(p: Policy, now: Option<int>, order: seq<File>, objects: seq<File>, dropped: nat)
  {
    dropped <= |order| && forall i :: 0 <= i < dropped ==> Drops(p, now, order[i..], objects)
  }

  /** Within the order by age, what is newer than a protected or unexpired action is so too. */
  lemma NewerIsSafer(p: Policy, now: Option<int>, a: File, b: File)
    requires ByAge(a, b)
    ensures Protected(p, now, a) ==> Protected(p, now, b)
    ensures Expired(p, now, b) ==> Expired(p, now, a)
  {
  }

  /** Where a collection stops: the actions before `d` go, and no further one is to go. */
  ghost predicate StopsAt(p: Policy, now: Option<int>, order: seq<File>, objects: seq<File>, d: nat)
  {
    && DroppedPrefix(p, now, order, objects, d)
    && (d < |order| ==> !Drops(p, now, order[d..], objects))
  }

  /** The survivors meet the policy: they are within the size limit or wholly protected, and what is
      too old is protected. */
  ghost predicate Meets(p: Policy, now: Option<int>, survivors: seq<File>, objects: seq<File>)
  {
    && (forall f :: f in survivors && Expired(p, now, f) ==> Protected(p, now, f))
    && (p.maxBytes > 0 ==>
         Remaining(p, now, survivors, objects) <= p.maxBytes || forall f :: f in survivors ==> Protected(p, now, f))
  }

  /** The policy in terms of ages: how long ago a file was modified. */
  ghost predicate Young(p: Policy, now: Option<int>, f: File)
  {
    p.minIdle > 0 && now.Some? && now.value - f.modified < p.minIdle
  }

  ghost predicate Old(p: Policy, now: Option<int>, f: File)
  {
    p.ttl > 0 && now.Some? && now.value - f.modified >= p.ttl
  }

  /** No young action went, each that went was old or stood in the way of the size limit, and none that
      stays is older than one that went. */
  ghost predicate WentForAge(p: Policy, now: Option<int>, order: seq<File>, objects: seq<File>, d: nat)
  {
    && d <= |order|
    && (forall i :: 0 <= i < d ==> !Young(p, now, order[i]))
    && (forall i :: 0 <= i < d ==>
         Old(p, now, order[i]) || (p.maxBytes > 0 && Remaining(p, now, order[i..], objects) > p.maxBytes))
    && (forall i, j :: 0 <= i < d <= j < |order| ==> order[i].modified <= order[j].modified)
  }

  lemma DroppedForAge(p: Policy, now: Option<int>, order: seq<File>, objects: seq<File>, d: nat)
    requires Sorted(order, ByAge) && DroppedPrefix(p, now, order, objects, d)
    ensures WentForAge(p, now, order, objects, d)
  {
    hide Remaining;
    forall i | 0 <= i < d
      ensures !Young(p, now, order[i])
      ensures Old(p, now, order[i]) || (p.maxBytes > 0 && Remaining(p, now, order[i..], objects) > p.maxBytes)
    {
      assert Drops(p, now, order[i..], objects) && order[i..][0] == order[i];
    }
    forall i, j | 0 <= i < d <= j < |order| ensures order[i].modified <= order[j].modified {
      assert ByAge(order[i], order[j]);
    }
  }

  /** What is left after a complete collection: nothing old that is not young, and a size within the limit
      unless everything left is young. */
  ghost predicate LeftForAge(p: Policy, now: Option<int>, survivors: seq<File>, objects: seq<File>)
  {
    && (forall f :: f in survivors && Old(p, now, f) ==> Young(p, now, f))
    && (p.maxBytes > 0 ==>
         Remaining(p, now, survivors, objects) <= p.maxBytes || forall f :: f in survivors ==> Young(p, now, f))
  }

  lemma MeetsForAge(p: Policy, now: Option<int>, survivors: seq<File>, objects: seq<File>)
    requires Meets(p, now, survivors, objects)
    ensures LeftForAge(p, now, survivors, objects)
  {
    hide Remaining;
  }

  /** There is one such place. */
  lemma StopIsUnique(p: Policy, now: Option<int>, order: seq<File>, objects: seq<File>, d: nat)
    requires StopsAt(p, now, order, objects, d)
    ensures forall e: nat :: StopsAt(p, now, order, objects, e) <==> e == d
  {
  }

  lemma StoppedMeets(p: Policy, now: Option<int>, order: seq<File>, objects: seq<File>, d: nat)
    requires Sorted(order, ByAge) && StopsAt(p, now, order, objects, d)
    ensures Meets(p, now, order[d..], objects)
  {
    hide Remaining;
    forall i | d <= i < |order|
      ensures ByAge(order[d], order[i])
      ensures Protected(p, now, order[d]) ==> Protected(p, now, order[i])
      ensures Expired(p, now, order[i]) ==> Expired(p, now, order[d])
    {
      if i == d {
        TextLeTotal(order[d].name, order[d].name);
      }
      NewerIsSafer(p, now, order[d], order[i]);
    }
    if d < |order| {
      assert order[d..][0] == order[d];
    }
    forall f | f in order[d..] ensures exists i :: d <= i < |order| && order[i] == f {
      var k :| 0 <= k < |order| - d && order[d..][k] == f;
      assert order[d + k] == f;
    }
  }

  /** `oldest` is the earliest modification among the actions, and None when there are none. */
  datatype Status = Status(entries: nat, bytes: int, oldest: Option<int>)

  ghost predicate IsOldest(actions: seq<File>, oldest: Option<int>)
  {
    && (oldest.None? <==> actions == [])
    && (oldest.Some? ==> exists f :: f in actions && f.modified == oldest.value)
    && (oldest.Some? ==> forall f :: f in actions ==> oldest.value <= f.modified)
  }

  method Oldest(actions: seq<File>) returns (oldest: Option<int>)
    ensures IsOldest(actions, oldest)
  {
    oldest := None;
    for i := 0 to |actions|
      invariant IsOldest(actions[..i], oldest)
    {
      assert actions[..i + 1] == actions[..i] + [actions[i]];
      if oldest.None? || actions[i].modified < oldest.value {
        oldest := Some(actions[i].modified);
      }
    }
    assert actions[..|actions|] == actions;
  }

  datatype Collected = Collected(before: Status, after: Status, removedActions: nat, removedObjects: nat,
                                 removedBytes: int)

  /** One collection over a listing of the layer.  Removing a file may fail: `stuckActions` and
      `stuckObjects` name the files whose removal does. */
  class Sweep {
    const policy: Policy
    const now: Option<int>
    const order: seq<File>
    const objects: seq<File>
    const stuckActions: set<string>
    const stuckObjects: set<string>
    var references: map<string, int>
    var removed: seq<bool>
    var dropped: nat
    var remaining: int
    /** Flagged objects before this index are off the disk. */
    var swept: nat

    ghost predicate Valid()
      reads this
    {
      && Sorted(order, ByAge)
      && DroppedPrefix(policy, now, order, objects, dropped)
      && (forall f :: f in order ==> f.output in references)
      && (forall o :: o in references ==> references[o] == Named(order[dropped..], o))
      && removed == GoneFlags(policy, now, order[dropped..], objects)
      && remaining == Kept(objects, removed)
      && swept <= |objects|
    }

    ghost predicate Erased(j: nat)
      reads this
      requires j < |objects| && |removed| == |objects|
    {
      j < swept && removed[j]
    }

    constructor (p: Policy, moment: Option<int>, actions: seq<File>, files: seq<File>, heldActions: set<string>,
                 heldObjects: set<string>)
      ensures policy == p && now == moment && objects == files
      ensures stuckActions == heldActions && stuckObjects == heldObjects
      ensures order == Sort(actions, ByAge)
      ensures references == map[] && removed == seq(|files|, j => false) && dropped == 0 && remaining == 0 && swept == 0
    {
      policy, now, objects := p, moment, files;
      stuckActions, stuckObjects := heldActions, heldObjects;
      order := Sort(actions, ByAge);
      references := map[];
      removed := seq(|files|, j => false);
      dropped, remaining, swept := 0, 0, 0;
    }

    method CountReferences()
      modifies this`references
      ensures forall f :: f in order ==> f.output in references
      ensures forall o :: o in references ==> references[o] == Named(order, o)
      ensures forall o :: o !in references ==> Named(order, o) == 0
    {
      references := map[];
      for i := 0 to |order|
        invariant forall j :: 0 <= j < i ==> order[j].output in references
        invariant forall o :: o in references ==> references[o] == Named(order[..i], o)
        invariant forall o :: o !in references ==> Named(order[..i], o) == 0
      {
        var output := order[i].output;
        forall o ensures Named(order[..i + 1], o) == Named(order[..i], o) + (if output == o then 1 else 0) {
          NamedAppend(order[..i], order[i], o);
          assert order[..i + 1] == order[..i] + [order[i]];
        }
        references := references[output := (if output in references then references[output] else 0) + 1];
      }
      assert order[..|order|] == order;
    }

    method SumSizes() returns (total: nat)
      ensures total == Total(objects)
    {
      total := 0;
      for i := 0 to |objects|
        invariant total == Total(objects[..i])
      {
        TotalAppend(objects[..i], objects[i]);
        assert objects[..i + 1] == objects[..i] + [objects[i]];
        total := total + objects[i].size;
      }
      assert objects[..|objects|] == objects;
    }

    /** The collector's index from names to positions keeps the last position of a name. */
    function IndexOf(name: string): (i: Option<nat>)
      ensures i.Some? ==> i.value < |objects| && objects[i.value].name == name && Latest(objects, i.value)
      ensures i.None? ==> forall j :: 0 <= j < |objects| ==> objects[j].name != name
    {
      LastNamed(objects, name)
    }

    /** Flag the object of this name and take its bytes off, unless it is protected. */
    method Release(name: string)
      requires |removed| == |objects| && remaining == Kept(objects, removed)
      modifies this`removed, this`remaining
      ensures |removed| == |objects| && remaining == Kept(objects, removed)
      ensures forall j :: 0 <= j < |objects| ==>
        removed[j] == (old(removed)[j] || (objects[j].name == name && Latest(objects, j) && !Protected(policy, now, objects[j])))
    {
      var index := IndexOf(name);
      if index.None? || removed[index.value] || Protected(policy, now, objects[index.value]) {
        return;
      }
      KeptFlag(objects, removed, index.value);
      removed := removed[index.value := true];
      remaining := remaining - objects[index.value].size;
    }

    method ReleaseUnreferenced()
      requires |removed| == |objects| && (forall j :: 0 <= j < |removed| ==> !removed[j])
      requires remaining == Kept(objects, removed)
      requires forall o :: o in references ==> references[o] == Named(order, o)
      requires forall o :: o !in references ==> Named(order, o) == 0
      modifies this`removed, this`remaining
      ensures removed == GoneFlags(policy, now, order, objects) && remaining == Kept(objects, removed)
    {
      for i := 0 to |objects|
        invariant |removed| == |objects| && remaining == Kept(objects, removed)
        invariant forall j :: 0 <= j < |objects| && removed[j] ==> Gone(policy, now, order, objects, j)
        invariant forall j :: 0 <= j < i && Gone(policy, now, order, objects, j) ==> removed[j]
      {
        var name := objects[i].name;
        if name !in references || references[name] == 0 {
          Release(name);
        }
      }
      assert removed == GoneFlags(policy, now, order, objects);
    }

    /** Counts the references, sums the sizes, and releases what nothing names. */
    method Prepare() returns (bytes: nat)
      requires Sorted(order, ByAge) && dropped == 0 && swept == 0 && removed == seq(|objects|, j => false)
      modifies this
      ensures Valid() && dropped == 0 && swept == 0 && bytes == Total(objects)
    {
      CountReferences();
      bytes := SumSizes();
      remaining := bytes;
      KeptAll(objects, removed);
      ReleaseUnreferenced();
      assert order[0..] == order;
    }

    /** Drop the oldest surviving action; false when its removal fails. */
    method Drop() returns (ok: bool)
      requires Valid() && dropped < |order| && Drops(policy, now, order[dropped..], objects)
      modifies this`references, this`removed, this`remaining, this`dropped
      ensures Valid()
      ensures ok <==> order[old(dropped)].name !in stuckActions
      ensures dropped == if ok then old(dropped) + 1 else old(dropped)
    {
      hide Sorted, ByAge, Kept, Drops, Protected, Latest;
      var action := order[dropped];
      if action.name in stuckActions {
        return false;
      }
      ghost var before, after := order[dropped..], order[dropped + 1..];
      forall o ensures Named(before, o) == Named(after, o) + (if action.output == o then 1 else 0) {
        assert before[1..] == after;
      }
      assert action in order;
      references := references[action.output := references[action.output] - 1];
      if references[action.output] <= 0 {
        Release(action.output);
      }
      dropped := dropped + 1;
      assert removed == GoneFlags(policy, now, after, objects);
      ok := true;
    }

    /** The first survivor is not to go by age. */
    ghost predicate Fresh()
      reads this
      requires dropped <= |order|
    {
      dropped < |order| ==> Protected(policy, now, order[dropped]) || !Expired(policy, now, order[dropped])
    }

    /** The pass by age.  Older actions come first, so what it drops is a prefix. */
    method DropExpired() returns (ok: bool)
      requires Valid() && dropped == 0
      modifies this`references, this`removed, this`remaining, this`dropped
      ensures Valid() && (ok ==> Fresh()) && (stuckActions == {} ==> ok)
    {
      if policy.ttl <= 0 || now.None? {
        return true;
      }
      for index := 0 to |order|
        invariant Valid() && dropped <= index
        invariant dropped < index ==> Fresh()
      {
        if dropped < index {
          assert ByAge(order[dropped], order[index]);
          NewerIsSafer(policy, now, order[dropped], order[index]);
        }
        var action := order[index];
        if now.value - action.modified < policy.ttl || Protected(policy, now, action) {
          continue;
        }
        assert dropped == index;
        var done := Drop();
        if !done {
          return false;
        }
      }
      ok := true;
    }

    /** The pass by size, from the oldest action that is left. */
    method DropForSize() returns (ok: bool)
      requires Valid() && Fresh()
      modifies this`references, this`removed, this`remaining, this`dropped
      ensures Valid() && (stuckActions == {} ==> ok)
      ensures ok && dropped < |order| ==> !Drops(policy, now, order[dropped..], objects)
    {
      if policy.maxBytes <= 0 {
        return true;
      }
      for index := 0 to |order|
        invariant Valid() && Fresh()
        invariant dropped < index && dropped < |order| ==> Protected(policy, now, order[dropped])
      {
        if remaining <= policy.maxBytes {
          break;
        }
        if dropped < index {
          assert ByAge(order[dropped], order[index]);
          NewerIsSafer(policy, now, order[dropped], order[index]);
        }
        if index < dropped || Protected(policy, now, order[index]) {
          continue;
        }
        assert dropped == index;
        if index + 1 < |order| {
          assert ByAge(order[index], order[index + 1]);
          NewerIsSafer(policy, now, order[index], order[index + 1]);
        }
        var done := Drop();
        if !done {
          return false;
        }
      }
      ok := true;
    }

    /** Take the flagged objects off the disk, one by one. */
    method Erase() returns (ok: bool, count: nat, bytes: int)
      requires Valid() && swept == 0
      modifies this`swept
      ensures Valid() && (stuckObjects == {} ==> ok)
      ensures ok ==> swept == |objects| && bytes == Total(objects) - remaining && count == Flagged(removed)
    {
      count, bytes := 0, 0;
      while swept < |objects|
        invariant Valid() && bytes == Total(objects[..swept]) - Kept(objects[..swept], removed[..swept])
        invariant count == Flagged(removed[..swept])
      {
        if removed[swept] && objects[swept].name in stuckObjects {
          return false, count, bytes;
        }
        TotalAppend(objects[..swept], objects[swept]);
        KeptAppend(objects[..swept], removed[..swept], objects[swept], removed[swept]);
        FlaggedAppend(removed[..swept], removed[swept]);
        assert objects[..swept + 1] == objects[..swept] + [objects[swept]];
        assert removed[..swept + 1] == removed[..swept] + [removed[swept]];
        if removed[swept] {
          count := count + 1;
          bytes := bytes + objects[swept].size;
        }
        swept := swept + 1;
      }
      assert objects[..swept] == objects && removed[..swept] == removed;
      ok := true;
    }

    lemma ValidDropsForAge()
      requires Valid()
      ensures WentForAge(policy, now, order, objects, dropped)
      ensures forall j :: 0 <= j < |objects| && Erased(j) ==> !Young(policy, now, objects[j])
    {
      DroppedForAge(policy, now, order, objects, dropped);
    }

    /** One collection.  On failure as on success, an object is erased only when no surviving action
        names it; on success the collection stopped at the one place a single walk in age order would,
        the survivors meet the policy, and the counts are those of what survives. */
    method Collect() returns (ok: bool, result: Collected)
      requires Sorted(order, ByAge) && dropped == 0 && swept == 0 && removed == seq(|objects|, j => false)
      modifies this
      ensures dropped <= |order| && |removed| == |objects|
      ensures !ValidPolicy(policy) ==> !ok && dropped == 0 && swept == 0
      ensures ValidPolicy(policy) && stuckActions == {} && stuckObjects == {} ==> ok
      ensures DroppedPrefix(policy, now, order, objects, dropped)
      ensures ok ==> forall d: nat :: StopsAt(policy, now, order, objects, d) <==> d == dropped
      ensures ok ==> Meets(policy, now, order[dropped..], objects)
      ensures WentForAge(policy, now, order, objects, dropped)
      ensures ok ==> LeftForAge(policy, now, order[dropped..], objects)
      ensures forall j :: 0 <= j < |objects| && Erased(j) ==> !Young(policy, now, objects[j])
      ensures forall j :: 0 <= j < |objects| && Erased(j) ==> Gone(policy, now, order[dropped..], objects, j)
      ensures ok ==> forall j :: 0 <= j < |objects| && Gone(policy, now, order[dropped..], objects, j) ==> Erased(j)
      ensures ok ==> result.before.entries == |order| && result.before.bytes == Total(objects)
      ensures ok ==> result.after.entries == |order| - dropped
      ensures ok ==> result.after.bytes == Remaining(policy, now, order[dropped..], objects)
      ensures ok ==> IsOldest(order, result.before.oldest) && IsOldest(order[dropped..], result.after.oldest)
      ensures ok ==> result.removedActions == dropped && result.removedObjects == Flagged(removed)
      ensures ok ==> result.removedBytes == result.before.bytes - result.after.bytes
    {
      hide Meets, IsOldest, WentForAge, LeftForAge, Young, Protected, Expired, Drops, Gone, Total, Kept, Flagged, Sorted, ByAge;
      result := Collected(Status(0, 0, None), Status(0, 0, None), 0, 0, 0);
      DroppedForAge(policy, now, order, objects, 0);
      if !ValidPolicy(policy) {
        return false, result;
      }
      var bytes := Prepare();
      var first := Oldest(order);
      ok := DropExpired();
      ValidDropsForAge();
      if !ok {
        return;
      }
      ok := DropForSize();
      ValidDropsForAge();
      if !ok {
        return;
      }
      var count, erased;
      ok, count, erased := Erase();
      ValidDropsForAge();
      if !ok {
        return;
      }
      var oldest := Oldest(order[dropped..]);
      var before, after := Status(|order|, bytes, first), Status(|order| - dropped, bytes - erased, oldest);
      result := Collected(before, after, dropped, count, erased);
      StopIsUnique(policy, now, order, objects, dropped);
      StoppedMeets(policy, now, order, objects, dropped);
      MeetsForAge(policy, now, order[dropped..], objects);
    }
  }

  function LastNamed(objects: seq<File>, name: string): (i: Option<nat>)
    ensures i.Some? ==> i.value < |objects| && objects[i.value].name == name && Latest(objects, i.value)
    ensures i.None? ==> forall j :: 0 <= j < |objects| ==> objects[j].name != name
  {
    if objects == [] then None
    else if objects[|objects| - 1].name == name then Some(|objects| - 1)
    else LastNamed(objects[..|objects| - 1], name)
  }

  function Flagged(flags: seq<bool>): nat
  {
    if flags == [] then 0 else (if flags[0] then 1 else 0) + Flagged(flags[1..])
  }

  lemma {:induction false} FlaggedAppend(flags: seq<bool>, flag: bool)
    ensures Flagged(flags + [flag]) == Flagged(flags) + (if flag then 1 else 0)
  {
    if flags == [] {
      assert ([] + [flag])[1..] == [];
    } else {
      assert (flags + [flag])[1..] == flags[1..] + [flag];
      FlaggedAppend(flags[1..], flag);
    }
  }

  lemma {:induction false} KeptAppend(objects: seq<File>, flags: seq<bool>, f: File, flag: bool)
    requires |objects| == |flags|
    ensures Kept(objects + [f], flags + [flag]) == Kept(objects, flags) + (if flag then 0 else f.size)
  {
    if objects == [] {
      assert ([] + [f])[1..] == [] && ([] + [flag])[1..] == [];
    } else {
      assert (objects + [f])[1..] == objects[1..] + [f];
      assert (flags + [flag])[1..] == flags[1..] + [flag];
      KeptAppend(objects[1..], flags[1..], f, flag);
    }
  }

  lemma {:induction false} NamedAppend(actions: seq<File>, f: File, output: string)
    ensures Named(actions + [f], output) == Named(actions, output) + (if f.output == output then 1 else 0)
  {
    if actions == [] {
      assert ([] + [f])[1..] == [];
    } else {
      assert (actions + [f])[1..] == actions[1..] + [f];
      NamedAppend(actions[1..], f, output);
    }
  }

  lemma {:induction false} TotalAppend(objects: seq<File>, f: File)
    ensures Total(objects + [f]) == Total(objects) + f.size
  {
    if objects == [] {
      assert ([] + [f])[1..] == [];
    } else {
      assert (objects + [f])[1..] == objects[1..] + [f];
      TotalAppend(objects[1..], f);
    }
  }

  ghost predicate DistinctNames(files: seq<File>)
  {
    forall i, j :: 0 <= i < j < |files| ==> files[i].name != files[j].name
  }

  lemma NamesPermute(a: seq<File>, b: seq<File>)
    requires multiset(a) == multiset(b) && DistinctNames(a)
    ensures DistinctNames(b)
  {
    forall i, j | 0 <= i < j < |b| ensures b[i].name != b[j].name {
      if b[i].name == b[j].name {
        SameMembers(a, b);
        assert b[i] in a && b[j] in a;
        OccursTwice(b, i, j);
        OccursOnce(a, b[i]);
      }
    }
  }

  /** With unique object names, an object stays exactly when it is protected or a surviving action
      names it. */
  lemma StaysIffNeeded(p: Policy, now: Option<int>, survivors: seq<File>, objects: seq<File>, j: nat)
    requires DistinctNames(objects) && j < |objects|
    ensures !Gone(p, now, survivors, objects, j) <==>
            Young(p, now, objects[j]) || exists i :: 0 <= i < |survivors| && survivors[i].output == objects[j].name
  {
    NamedMember(survivors, objects[j].name);
  }

  /** The objects that are not flagged. */
  function Staying(objects: seq<File>, flags: seq<bool>): (kept: seq<File>)
    requires |objects| == |flags|
    ensures forall f :: f in kept ==> exists j :: 0 <= j < |objects| && objects[j] == f && !flags[j]
  {
    if objects == [] then [] else
      var rest := Staying(objects[1..], flags[1..]);
      assert forall j :: 0 <= j < |objects[1..]| ==> objects[1..][j] == objects[j + 1] && flags[1..][j] == flags[j + 1];
      if flags[0] then rest else [objects[0]] + rest
  }

  lemma {:induction false} StayingTotal(objects: seq<File>, flags: seq<bool>)
    requires |objects| == |flags|
    ensures Total(Staying(objects, flags)) == Kept(objects, flags)
  {
    if objects != [] {
      StayingTotal(objects[1..], flags[1..]);
      if !flags[0] {
        assert Staying(objects, flags)[1..] == Staying(objects[1..], flags[1..]);
      }
    }
  }

  /** The bytes reported afterwards are those of the objects that stay, and a second collection at
      the same moment finds nothing to do. */
  lemma CollectionIsIdempotent(p: Policy, now: Option<int>, order: seq<File>, objects: seq<File>, d: nat)
    requires DistinctNames(objects) && StopsAt(p, now, order, objects, d)
    ensures
      var left := Staying(objects, GoneFlags(p, now, order[d..], objects));
      && Remaining(p, now, order[d..], objects) == Total(left)
      && StopsAt(p, now, order[d..], left, 0)
      && (forall j :: 0 <= j < |left| ==> !Gone(p, now, order[d..], left, j))
  {
    var rest := order[d..];
    var flags := GoneFlags(p, now, rest, objects);
    var left := Staying(objects, flags);
    StayingTotal(objects, flags);
    forall j | 0 <= j < |left| ensures !Gone(p, now, rest, left, j) {
      assert left[j] in left;
    }
    KeptAll(left, GoneFlags(p, now, rest, left));
    assert Remaining(p, now, rest, left) == Remaining(p, now, rest, objects);
    assert rest[0..] == rest;
  }
}
