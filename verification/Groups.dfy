/** Batching the reaching targets and evaluating a mutant batch by batch (internal/assure/mutation.go).
    A batch shares a package and a behaviour environment: the batch key of a target. */
module Groups {
  import opened Wrappers
  import opened Ordering
  import opened Coverage
  import opened Routing
  import opened RoutingSoundness

  // ---- batching

  /** Put the target into the group of its key, or into a new one. */
  function Place(groups: seq<seq<Target>>, t: Target, key: Target -> string): seq<seq<Target>>
  {
    if groups == [] then [[t]]
    else if groups[0] != [] && key(groups[0][0]) == key(t) then [groups[0] + [t]] + groups[1..]
    else [groups[0]] + Place(groups[1..], t, key)
  }

  function Collect(targets: seq<Target>, key: Target -> string): seq<seq<Target>>
  {
    if targets == [] then [] else Place(Collect(targets[..|targets| - 1], key), targets[|targets| - 1], key)
  }

  /** Lexicographic comparison of the package, the name, the kind and the identifier. */
  predicate MemberLe(a: Target, b: Target)
  {
    if a.pkg != b.pkg then TextLe(a.pkg, b.pkg)
    else if a.name != b.name then TextLe(a.name, b.name)
    else if a.kind != b.kind then TextLe(a.kind, b.kind)
    else TextLe(a.id, b.id)
  }

  const MAX_DURATION: int := 0x7fff_ffff_ffff_ffff

  /** The sum of two durations, held at the largest one. */
  function SaturatingSum(total: int, duration: int): int
  {
    if duration <= 0 then total
    else if duration > MAX_DURATION - total then MAX_DURATION
    else total + duration
  }

  function GroupDuration(group: seq<Target>): int
  {
    if group == [] then 0
    else SaturatingSum(GroupDuration(group[..|group| - 1]), PlanningDuration(group[|group| - 1]))
  }

  predicate GroupLe(a: seq<Target>, b: seq<Target>, key: Target -> string)
  {
    if GroupDuration(a) != GroupDuration(b) then GroupDuration(a) < GroupDuration(b)
    else a == [] || (b != [] && TextLe(key(a[0]), key(b[0])))
  }

  function GroupOrder(key: Target -> string): (seq<Target>, seq<Target>) -> bool
  {
    (a, b) => GroupLe(a, b, key)
  }

  function SortEach(groups: seq<seq<Target>>): (sorted: seq<seq<Target>>)
    ensures |sorted| == |groups|
  {
    seq(|groups|, i requires 0 <= i < |groups| => Sort(groups[i], MemberLe))
  }

  function GroupsOf(targets: seq<Target>, key: Target -> string): seq<seq<Target>>
  {
    Sort(SortEach(Collect(targets, key)), GroupOrder(key))
  }

  method MutationTargetGroups(targets: seq<Target>, key: Target -> string) returns (groups: seq<seq<Target>>)
    ensures groups == GroupsOf(targets, key)
  {
    groups := CollectGroups(targets, key);
    ghost var collected := groups;
    for i := 0 to |groups|
      invariant |groups| == |collected|
      invariant forall j :: 0 <= j < i ==> groups[j] == Sort(collected[j], MemberLe)
      invariant forall j :: i <= j < |groups| ==> groups[j] == collected[j]
    {
      groups := groups[i := Sort(groups[i], MemberLe)];
    }
    assert groups == SortEach(collected);
    groups := Sort(groups, GroupOrder(key));
  }

  /** The index of the groups by their keys. */
  ghost predicate Indexed(indexes: map<string, nat>, groups: seq<seq<Target>>, key: Target -> string)
  {
    && (forall k :: k in indexes ==> indexes[k] < |groups| && Lead(groups[indexes[k]], key) == Some(k))
    && (forall j :: 0 <= j < |groups| ==> Lead(groups[j], key).Some? && Lead(groups[j], key).value in indexes)
  }

  method CollectGroups(targets: seq<Target>, key: Target -> string) returns (groups: seq<seq<Target>>)
    ensures groups == Collect(targets, key)
  {
    hide Keyed, Indexed, Place;
    groups := [];
    var indexes: map<string, nat> := map[];
    NoGroups(key);
    for i := 0 to |targets|
      invariant groups == Collect(targets[..i], key) && Keyed(groups, key) && Indexed(indexes, groups, key)
    {
      var t := targets[i];
      assert targets[..i + 1][..i] == targets[..i];
      PlaceKeyed(groups, t, key);
      PlaceIndexed(indexes, groups, t, key);
      if key(t) in indexes {
        var index := indexes[key(t)];
        groups := groups[index := groups[index] + [t]];
      } else {
        indexes := indexes[key(t) := |groups|];
        groups := groups + [[t]];
      }
    }
    assert targets[..|targets|] == targets;
  }

  lemma NoGroups(key: Target -> string)
    ensures Keyed([], key) && Indexed(map[], [], key)
  {
  }

  lemma PlaceIndexed(indexes: map<string, nat>, groups: seq<seq<Target>>, t: Target, key: Target -> string)
    requires Keyed(groups, key) && Indexed(indexes, groups, key)
    ensures key(t) in indexes ==>
      && indexes[key(t)] < |groups|
      && Place(groups, t, key) == groups[indexes[key(t)] := groups[indexes[key(t)]] + [t]]
      && Indexed(indexes, Place(groups, t, key), key)
    ensures key(t) !in indexes ==>
      Place(groups, t, key) == groups + [[t]] && Indexed(indexes[key(t) := |groups|], Place(groups, t, key), key)
  {
    if key(t) in indexes {
      PlaceAt(groups, t, key, indexes[key(t)]);
      var after := Place(groups, t, key);
      forall j | 0 <= j < |groups| ensures Lead(after[j], key) == Lead(groups[j], key) {
      }
    } else {
      PlaceNew(groups, t, key);
    }
  }

  /** The key of a group. */
  function Lead(group: seq<Target>, key: Target -> string): Option<string>
  {
    if group == [] then None else Some(key(group[0]))
  }

  /** Groups are not empty, agree on the key within and differ in it between them. */
  ghost predicate Keyed(groups: seq<seq<Target>>, key: Target -> string)
  {
    && (forall i :: 0 <= i < |groups| ==> Lead(groups[i], key).Some?)
    && (forall i, t :: 0 <= i < |groups| && t in groups[i] ==> Some(key(t)) == Lead(groups[i], key))
    && (forall i, j :: 0 <= i < j < |groups| ==> Lead(groups[i], key) != Lead(groups[j], key))
  }

  lemma {:induction false} PlaceAt(groups: seq<seq<Target>>, t: Target, key: Target -> string, index: nat)
    requires Keyed(groups, key) && index < |groups| && Lead(groups[index], key) == Some(key(t))
    ensures Place(groups, t, key) == groups[index := groups[index] + [t]]
  {
    if index > 0 {
      assert Lead(groups[0], key) != Lead(groups[index], key);
      assert forall i :: 0 <= i < |groups[1..]| ==> groups[1..][i] == groups[i + 1];
      PlaceAt(groups[1..], t, key, index - 1);
    }
  }

  lemma {:induction false} PlaceNew(groups: seq<seq<Target>>, t: Target, key: Target -> string)
    requires forall j :: 0 <= j < |groups| ==> Lead(groups[j], key).Some? && Lead(groups[j], key) != Some(key(t))
    ensures Place(groups, t, key) == groups + [[t]]
  {
    if groups != [] {
      PlaceNew(groups[1..], t, key);
    }
  }

  lemma PlaceKeyed(groups: seq<seq<Target>>, t: Target, key: Target -> string)
    requires Keyed(groups, key)
    ensures Keyed(Place(groups, t, key), key)
  {
    if index :| 0 <= index < |groups| && Lead(groups[index], key) == Some(key(t)) {
      PlaceAt(groups, t, key, index);
      var after := groups[index := groups[index] + [t]];
      forall i | 0 <= i < |after| ensures Lead(after[i], key) == Lead(groups[i], key) {
      }
    } else {
      PlaceNew(groups, t, key);
    }
  }

  function Flat(groups: seq<seq<Target>>): seq<Target>
  {
    if groups == [] then [] else groups[0] + Flat(groups[1..])
  }

  lemma {:induction false} PlaceFlat(groups: seq<seq<Target>>, t: Target, key: Target -> string)
    ensures multiset(Flat(Place(groups, t, key))) == multiset(Flat(groups)) + multiset{t}
  {
    if groups == [] {
      assert [[t]][1..] == [];
    } else if groups[0] != [] && key(groups[0][0]) == key(t) {
      assert ([groups[0] + [t]] + groups[1..])[1..] == groups[1..];
    } else {
      PlaceFlat(groups[1..], t, key);
      assert ([groups[0]] + Place(groups[1..], t, key))[1..] == Place(groups[1..], t, key);
    }
  }

  lemma {:induction false} CollectPartitions(targets: seq<Target>, key: Target -> string)
    ensures Keyed(Collect(targets, key), key)
    ensures multiset(Flat(Collect(targets, key))) == multiset(targets)
  {
    if targets != [] {
      var front, last := targets[..|targets| - 1], targets[|targets| - 1];
      CollectPartitions(front, key);
      PlaceKeyed(Collect(front, key), last, key);
      PlaceFlat(Collect(front, key), last, key);
      assert targets == front + [last];
    }
  }

  lemma {:induction false} SortEachFlat(groups: seq<seq<Target>>)
    ensures multiset(Flat(SortEach(groups))) == multiset(Flat(groups))
  {
    if groups != [] {
      SortEachFlat(groups[1..]);
      assert SortEach(groups)[1..] == SortEach(groups[1..]);
      SortPermutes(groups[0], MemberLe);
    }
  }

  lemma SortEachKeyed(groups: seq<seq<Target>>, key: Target -> string)
    requires Keyed(groups, key)
    ensures Keyed(SortEach(groups), key)
  {
    var sorted := SortEach(groups);
    forall i | 0 <= i < |groups|
      ensures Lead(sorted[i], key) == Lead(groups[i], key)
      ensures forall t :: t in sorted[i] ==> t in groups[i]
    {
      SortMembers(groups[i], MemberLe);
      SortPermutes(groups[i], MemberLe);
      assert sorted[i][0] in sorted[i];
    }
  }

  /** The multiset of all members, group by group. */
  lemma {:induction false} FlatPermutes(a: seq<seq<Target>>, b: seq<seq<Target>>)
    requires multiset(a) == multiset(b)
    ensures multiset(Flat(a)) == multiset(Flat(b))
    decreases |a|
  {
    SameMembers(a, b);
    if a != [] {
      assert a[0] in b;
      var i :| 0 <= i < |b| && b[i] == a[0];
      var rest := Without(b, i);
      assert a == [a[0]] + a[1..];
      WithoutMembers(b, i);
      WithoutFlat(b, i);
      assert multiset(a[1..]) == multiset(a) - multiset{a[0]};
      FlatPermutes(a[1..], rest);
    }
  }

  function Without(b: seq<seq<Target>>, i: nat): (rest: seq<seq<Target>>)
    requires i < |b|
    ensures |rest| == |b| - 1
  {
    if i == 0 then b[1..] else [b[0]] + Without(b[1..], i - 1)
  }

  lemma {:induction false} WithoutMembers(b: seq<seq<Target>>, i: nat)
    requires i < |b|
    ensures multiset(Without(b, i)) == multiset(b) - multiset{b[i]}
  {
    assert b == [b[0]] + b[1..];
    if i > 0 {
      WithoutMembers(b[1..], i - 1);
    }
  }

  lemma {:induction false} WithoutFlat(b: seq<seq<Target>>, i: nat)
    requires i < |b|
    ensures multiset(Flat(b)) == multiset(b[i]) + multiset(Flat(Without(b, i)))
  {
    if i > 0 {
      var rest := Without(b[1..], i - 1);
      WithoutFlat(b[1..], i - 1);
      assert ([b[0]] + rest)[1..] == rest;
    }
  }

  lemma KeyedPermutes(a: seq<seq<Target>>, b: seq<seq<Target>>, key: Target -> string)
    requires Keyed(a, key) && multiset(a) == multiset(b)
    ensures Keyed(b, key)
  {
    SameMembers(a, b);
    forall i | 0 <= i < |b| ensures exists k :: 0 <= k < |a| && a[k] == b[i] {
      assert b[i] in a;
    }
    forall i, j | 0 <= i < j < |b| ensures Lead(b[i], key) != Lead(b[j], key) {
      var k :| 0 <= k < |a| && a[k] == b[i];
      var l :| 0 <= l < |a| && a[l] == b[j];
      if k == l {
        OccursTwice(b, i, j);
        forall x, y | 0 <= x < y < |a| ensures a[x] != a[y] {
          assert Lead(a[x], key) != Lead(a[y], key);
        }
        OccursOnce(a, b[i]);
      }
    }
  }

  /** The groups partition the targets by key: every target is in exactly one group, with all the others
      of its key and none else. */
  lemma GroupsPartition(targets: seq<Target>, key: Target -> string)
    ensures multiset(Flat(GroupsOf(targets, key))) == multiset(targets)
    ensures Keyed(GroupsOf(targets, key), key)
  {
    var collected := Collect(targets, key);
    CollectPartitions(targets, key);
    SortEachFlat(collected);
    SortEachKeyed(collected, key);
    SortPermutes(SortEach(collected), GroupOrder(key));
    FlatPermutes(SortEach(collected), GroupsOf(targets, key));
    KeyedPermutes(SortEach(collected), GroupsOf(targets, key), key);
  }

  // ---- the order of the batches

  /** The times of the members, of the probe where there is one, added up. */
  function Sum(group: seq<Target>): nat
  {
    if group == [] then 0
    else
      var t := group[|group| - 1];
      Sum(group[..|group| - 1]) + (if t.probeDuration > 0 then t.probeDuration else if t.duration > 0 then t.duration else 0)
  }

  /** The duration of a group is the sum over its members, held at the largest duration, so the order of
      the members does not matter. */
  lemma {:induction false} DurationIsSum(group: seq<Target>)
    requires forall t :: t in group ==> PlanningDuration(t) <= MAX_DURATION
    ensures GroupDuration(group) == if Sum(group) > MAX_DURATION then MAX_DURATION else Sum(group)
  {
    if group != [] {
      assert group == group[..|group| - 1] + [group[|group| - 1]];
      DurationIsSum(group[..|group| - 1]);
    }
  }

  lemma MembersAreOrdered()
    ensures TotalPreorder(MemberLe)
  {
    forall a: Target, b: Target ensures MemberLe(a, b) || MemberLe(b, a) {
      MemberLeTotal(a, b);
    }
    forall a: Target, b: Target, c: Target | MemberLe(a, b) && MemberLe(b, c) ensures MemberLe(a, c) {
      MemberLeTransitive(a, b, c);
    }
  }

  lemma MemberLeTotal(a: Target, b: Target)
    ensures MemberLe(a, b) || MemberLe(b, a)
  {
    TextLeTotal(a.pkg, b.pkg);
    TextLeTotal(a.name, b.name);
    TextLeTotal(a.kind, b.kind);
    TextLeTotal(a.id, b.id);
  }

  lemma TextChain(a: string, b: string, c: string)
    requires TextLe(a, b) && TextLe(b, c)
    ensures TextLe(a, c) && (a == c ==> a == b)
  {
    TextLeTransitive(a, b, c);
    if a == c {
      TextLeAntisymmetric(a, b);
    }
  }

  lemma MemberLeTransitive(a: Target, b: Target, c: Target)
    requires MemberLe(a, b) && MemberLe(b, c)
    ensures MemberLe(a, c)
  {
    hide TextLe;
    if a.pkg != b.pkg || b.pkg != c.pkg {
      TextLeReflexive(a.pkg);
      TextLeReflexive(b.pkg);
      TextChain(a.pkg, b.pkg, c.pkg);
    } else if a.name != b.name || b.name != c.name {
      TextLeReflexive(a.name);
      TextLeReflexive(b.name);
      TextChain(a.name, b.name, c.name);
    } else if a.kind != b.kind || b.kind != c.kind {
      TextLeReflexive(a.kind);
      TextLeReflexive(b.kind);
      TextChain(a.kind, b.kind, c.kind);
    } else {
      TextLeTransitive(a.id, b.id, c.id);
    }
  }

  lemma TextLeReflexive(a: string)
    ensures TextLe(a, a)
  {
    TextLeTotal(a, a);
  }

  lemma GroupsAreOrdered(key: Target -> string)
    ensures TotalPreorder(GroupOrder(key))
  {
    forall a, b ensures GroupOrder(key)(a, b) || GroupOrder(key)(b, a) {
      if a != [] && b != [] {
        TextLeTotal(key(a[0]), key(b[0]));
      }
    }
    forall a, b, c | GroupOrder(key)(a, b) && GroupOrder(key)(b, c) ensures GroupOrder(key)(a, c) {
      if a != [] && b != [] && c != [] && TextLe(key(a[0]), key(b[0])) && TextLe(key(b[0]), key(c[0])) {
        TextLeTransitive(key(a[0]), key(b[0]), key(c[0]));
      }
    }
  }

  /** The quickest group comes first, ties going by key, and within a group members go by package, name,
      kind and identifier.  No duration exceeds the largest one. */
  lemma GroupsInOrder(targets: seq<Target>, key: Target -> string)
    requires forall t :: t in targets ==> PlanningDuration(t) <= MAX_DURATION
    ensures
      var groups := GroupsOf(targets, key);
      && (forall i :: 0 <= i < |groups| ==> groups[i] != [])
      && (forall i, j :: 0 <= i < j < |groups| ==>
           Capped(Sum(groups[i])) < Capped(Sum(groups[j])) ||
           (Capped(Sum(groups[i])) == Capped(Sum(groups[j])) && TextLe(key(groups[i][0]), key(groups[j][0]))))
      && (forall g: seq<Target>, i, j :: g in groups && 0 <= i < j < |g| ==>
           LexLe(Named(g[i]), Named(g[j])))
  {
    hide Sorted, MemberLe, GroupsOf, Keyed, LexLe, TextLe;
    var groups := GroupsOf(targets, key);
    GroupsAreSorted(targets, key);
    GroupsPartition(targets, key);
    GroupMembers(targets, key);
    KeyedNotEmpty(groups, key);
    forall i | 0 <= i < |groups| ensures GroupDuration(groups[i]) == Capped(Sum(groups[i])) {
      assert groups[i] in groups;
      DurationIsSum(groups[i]);
    }
    SortedPairs(groups, GroupOrder(key));
    forall g: seq<Target>, i, j | g in groups && 0 <= i < j < |g|
      ensures LexLe(Named(g[i]), Named(g[j]))
    {
      SortedPairs(g, MemberLe);
      MemberIsLex(g[i], g[j]);
    }
  }

  lemma KeyedNotEmpty(groups: seq<seq<Target>>, key: Target -> string)
    requires Keyed(groups, key)
    ensures forall i :: 0 <= i < |groups| ==> groups[i] != []
  {
    forall i | 0 <= i < |groups| ensures groups[i] != [] {
      assert Lead(groups[i], key).Some?;
    }
  }

  lemma SortedPairs<T>(s: seq<T>, le: (T, T) -> bool)
    requires Sorted(s, le)
    ensures forall i, j :: 0 <= i < j < |s| ==> le(s[i], s[j])
  {
  }

  function Capped(total: nat): nat
  {
    if total > MAX_DURATION then MAX_DURATION else total
  }

  function Named(t: Target): seq<string>
  {
    [t.pkg, t.name, t.kind, t.id]
  }

  /** Lexicographic comparison of lists of texts. */
  predicate LexLe(a: seq<string>, b: seq<string>)
  {
    a == [] || (b != [] && (if a[0] == b[0] then LexLe(a[1..], b[1..]) else TextLe(a[0], b[0])))
  }

  lemma MemberIsLex(a: Target, b: Target)
    requires MemberLe(a, b)
    ensures LexLe(Named(a), Named(b))
  {
    assert LexLe([], []);
    assert a.id == b.id || TextLe(a.id, b.id) ==> LexLe([a.id], [b.id]);
    assert [a.kind, a.id][1..] == [a.id] && [b.kind, b.id][1..] == [b.id];
    assert [a.name, a.kind, a.id][1..] == [a.kind, a.id] && [b.name, b.kind, b.id][1..] == [b.kind, b.id];
    assert [a.pkg, a.name, a.kind, a.id][1..] == [a.name, a.kind, a.id] && [b.pkg, b.name, b.kind, b.id][1..] == [b.name, b.kind, b.id];
  }

  lemma GroupsAreSorted(targets: seq<Target>, key: Target -> string)
    ensures Sorted(GroupsOf(targets, key), GroupOrder(key))
    ensures forall g :: g in GroupsOf(targets, key) ==> Sorted(g, MemberLe)
  {
    hide Sorted, MemberLe;
    var each := SortEach(Collect(targets, key));
    GroupsAreOrdered(key);
    SortSorted(each, GroupOrder(key));
    SortMembers(each, GroupOrder(key));
    forall g | g in each ensures Sorted(g, MemberLe) {
      var i :| 0 <= i < |each| && each[i] == g;
      MembersAreOrdered();
      SortSorted(Collect(targets, key)[i], MemberLe);
    }
  }

  lemma {:induction false} FlatMembers(groups: seq<seq<Target>>)
    ensures forall t :: t in Flat(groups) <==> exists g :: g in groups && t in g
  {
    if groups != [] {
      FlatMembers(groups[1..]);
      assert groups == [groups[0]] + groups[1..];
    }
  }

  lemma GroupMembers(targets: seq<Target>, key: Target -> string)
    ensures forall t :: t in targets <==> exists g :: g in GroupsOf(targets, key) && t in g
  {
    GroupsPartition(targets, key);
    SameMembers(Flat(GroupsOf(targets, key)), targets);
    FlatMembers(GroupsOf(targets, key));
  }

  // ---- evaluating the groups

  /** How a group run ends; Unknown covers a timeout, an inconclusive run and a failed control. */
  datatype Outcome = Killed | Survived | Unknown(kind: string) | Broken

  datatype Verdict =
    | KilledBy(killers: seq<Target>)
    | Undecided(unknown: seq<seq<Target>>)
    | SurvivedAll(executed: seq<Target>)
    | Failed

  type Run = seq<Target> -> Outcome

  /** What the repository observer makes of the targets of a run: it may mark them as whole-tree. */
  type Observe = seq<Target> -> seq<Target>

  function EvaluateFrom(groups: seq<seq<Target>>, run: Run, observe: Observe, executed: seq<Target>, unknown: seq<seq<Target>>): Verdict
    decreases |groups|
  {
    if groups == [] then (if unknown != [] then Undecided(unknown) else SurvivedAll(executed))
    else match run(groups[0])
      case Killed => KilledBy(observe(groups[0]))
      case Survived => EvaluateFrom(groups[1..], run, observe, executed + observe(groups[0]), unknown)
      case Unknown(_) => EvaluateFrom(groups[1..], run, observe, executed, unknown + [groups[0]])
      case Broken => Failed
  }

  function Evaluate(groups: seq<seq<Target>>, run: Run, observe: Observe): Verdict
  {
    EvaluateFrom(groups, run, observe, [], [])
  }

  /** Group after group, until one kills or breaks. */
  method EvaluateGroups(groups: seq<seq<Target>>, run: Run, observe: Observe) returns (verdict: Verdict)
    ensures verdict == Evaluate(groups, run, observe)
  {
    var executed: seq<Target>, unknown: seq<seq<Target>> := [], [];
    for i := 0 to |groups|
      invariant Evaluate(groups, run, observe) == EvaluateFrom(groups[i..], run, observe, executed, unknown)
    {
      assert groups[i..][0] == groups[i] && groups[i..][1..] == groups[i + 1..];
      match run(groups[i])
      case Killed =>
        return KilledBy(observe(groups[i]));
      case Survived =>
        executed := executed + observe(groups[i]);
      case Unknown(_) =>
        unknown := unknown + [groups[i]];
      case Broken =>
        return Failed;
    }
    verdict := if unknown != [] then Undecided(unknown) else SurvivedAll(executed);
  }

  /** The groups with an unknown outcome, and the observed targets of the surviving ones, in order. */
  function UnknownOnes(groups: seq<seq<Target>>, run: Run): seq<seq<Target>>
  {
    if groups == [] then [] else (if run(groups[0]).Unknown? then [groups[0]] else []) + UnknownOnes(groups[1..], run)
  }

  function SurvivingTargets(groups: seq<seq<Target>>, run: Run, observe: Observe): seq<Target>
  {
    if groups == [] then []
    else (if run(groups[0]).Survived? then observe(groups[0]) else []) + SurvivingTargets(groups[1..], run, observe)
  }

  /** The place of the first group that kills or breaks. */
  function FirstStop(groups: seq<seq<Target>>, run: Run): (n: nat)
    ensures n <= |groups|
    ensures forall i :: 0 <= i < n ==> run(groups[i]).Survived? || run(groups[i]).Unknown?
    ensures n < |groups| ==> run(groups[n]).Killed? || run(groups[n]).Broken?
  {
    if groups == [] || run(groups[0]).Killed? || run(groups[0]).Broken? then 0 else 1 + FirstStop(groups[1..], run)
  }

  /** The verdict on the groups together, after what was executed and left unknown before. */
  function Conclude(groups: seq<seq<Target>>, run: Run, observe: Observe, executed: seq<Target>, unknown: seq<seq<Target>>): Verdict
  {
    var n := FirstStop(groups, run);
    if n < |groups| then (if run(groups[n]).Killed? then KilledBy(observe(groups[n])) else Failed)
    else if unknown + UnknownOnes(groups, run) != [] then Undecided(unknown + UnknownOnes(groups, run))
    else SurvivedAll(executed + SurvivingTargets(groups, run, observe))
  }

  lemma ConcludeSurvived(groups: seq<seq<Target>>, run: Run, observe: Observe, executed: seq<Target>, unknown: seq<seq<Target>>)
    requires groups != [] && run(groups[0]).Survived?
    ensures Conclude(groups, run, observe, executed, unknown) ==
            Conclude(groups[1..], run, observe, executed + observe(groups[0]), unknown)
  {
    var rest := groups[1..];
    assert [] + UnknownOnes(rest, run) == UnknownOnes(rest, run);
    assert executed + observe(groups[0]) + SurvivingTargets(rest, run, observe) ==
           executed + (observe(groups[0]) + SurvivingTargets(rest, run, observe));
  }

  lemma ConcludeUnknown(groups: seq<seq<Target>>, run: Run, observe: Observe, executed: seq<Target>, unknown: seq<seq<Target>>)
    requires groups != [] && run(groups[0]).Unknown?
    ensures Conclude(groups, run, observe, executed, unknown) ==
            Conclude(groups[1..], run, observe, executed, unknown + [groups[0]])
  {
    var rest := groups[1..];
    assert [] + SurvivingTargets(rest, run, observe) == SurvivingTargets(rest, run, observe);
    assert unknown + [groups[0]] + UnknownOnes(rest, run) == unknown + ([groups[0]] + UnknownOnes(rest, run));
  }

  lemma {:induction false} EvaluateFromIs(groups: seq<seq<Target>>, run: Run, observe: Observe, executed: seq<Target>,
                                          unknown: seq<seq<Target>>)
    ensures EvaluateFrom(groups, run, observe, executed, unknown) == Conclude(groups, run, observe, executed, unknown)
    decreases |groups|
  {
    if groups == [] {
      assert unknown + [] == unknown && executed + [] == executed;
    } else if run(groups[0]).Survived? {
      hide Conclude;
      ConcludeSurvived(groups, run, observe, executed, unknown);
      EvaluateFromIs(groups[1..], run, observe, executed + observe(groups[0]), unknown);
    } else if run(groups[0]).Unknown? {
      hide Conclude;
      ConcludeUnknown(groups, run, observe, executed, unknown);
      EvaluateFromIs(groups[1..], run, observe, executed, unknown + [groups[0]]);
    }
  }

  lemma {:induction false} UnknownMembers(groups: seq<seq<Target>>, run: Run)
    ensures forall g :: g in UnknownOnes(groups, run) <==> g in groups && run(g).Unknown?
  {
    if groups != [] {
      UnknownMembers(groups[1..], run);
      assert groups == [groups[0]] + groups[1..];
    }
  }

  /** A verdict records exactly the groups that justify it. */
  lemma VerdictIsJustified(groups: seq<seq<Target>>, run: Run, observe: Observe)
    ensures
      var v := Evaluate(groups, run, observe);
      match v
      case KilledBy(killers) => exists g :: g in groups && run(g).Killed? && killers == observe(g)
      case Undecided(unknown) => unknown == UnknownOnes(groups, run) && forall g :: g in groups ==> run(g).Survived? || run(g).Unknown?
      case SurvivedAll(executed) => executed == SurvivingTargets(groups, run, observe) && forall g :: g in groups ==> run(g).Survived?
      case Failed => exists g :: g in groups && run(g).Broken?
  {
    EvaluateFromIs(groups, run, observe, [], []);
    var n := FirstStop(groups, run);
    assert [] + UnknownOnes(groups, run) == UnknownOnes(groups, run);
    assert [] + SurvivingTargets(groups, run, observe) == SurvivingTargets(groups, run, observe);
    if n < |groups| {
      assert groups[n] in groups;
    } else {
      UnknownMembers(groups, run);
    }
  }

  datatype Class = ClassKilled | ClassUnknown | ClassSurvived | ClassFailed

  function ClassOf(v: Verdict): Class
  {
    match v
    case KilledBy(_) => ClassKilled
    case Undecided(_) => ClassUnknown
    case SurvivedAll(_) => ClassSurvived
    case Failed => ClassFailed
  }

  /** Killed if any group kills, else unknown if any is unknown, else survived. */
  ghost function ClassOfAll(groups: seq<seq<Target>>, run: Run): Class
  {
    if exists g :: g in groups && run(g).Killed? then ClassKilled
    else if exists g :: g in groups && run(g).Unknown? then ClassUnknown
    else ClassSurvived
  }

  /** When no run breaks, the class of the verdict is that of all the groups together, so it does not
      depend on their order. */
  lemma ClassIgnoresOrder(groups: seq<seq<Target>>, others: seq<seq<Target>>, run: Run, observe: Observe)
    requires (forall g :: g in groups ==> !run(g).Broken?) && multiset(groups) == multiset(others)
    ensures ClassOf(Evaluate(groups, run, observe)) == ClassOfAll(groups, run)
    ensures ClassOf(Evaluate(groups, run, observe)) == ClassOf(Evaluate(others, run, observe))
  {
    SameMembers(groups, others);
    ClassIsOfAll(groups, run, observe);
    ClassIsOfAll(others, run, observe);
  }

  lemma ClassIsOfAll(groups: seq<seq<Target>>, run: Run, observe: Observe)
    requires forall g :: g in groups ==> !run(g).Broken?
    ensures ClassOf(Evaluate(groups, run, observe)) == ClassOfAll(groups, run)
  {
    VerdictIsJustified(groups, run, observe);
    UnknownMembers(groups, run);
    EvaluateFromIs(groups, run, observe, [], []);
    var n := FirstStop(groups, run);
    if n < |groups| {
      assert groups[n] in groups;
    } else {
      assert [] + UnknownOnes(groups, run) == UnknownOnes(groups, run);
      if UnknownOnes(groups, run) != [] {
        assert UnknownOnes(groups, run)[0] in UnknownOnes(groups, run);
      }
    }
  }

  // ---- the whole evaluation of a mutant, but for reuse

  datatype SeedVerdict =
    | ByGroups(verdict: Verdict)
    | Unreached
    | AllDischarged
    | BySuite(outcome: Outcome)

  function EvaluateSeed(r: Route, key: Target -> string, run: Run, observe: Observe, suite: Outcome): SeedVerdict
  {
    if Unrouted(r) && r.suiteCoverage != "" && !r.suiteReached then Unreached
    else if Unrouted(r) && r.suiteProbe != "" && !r.suiteInfected then Unreached
    else if r.reaching == [] && r.discharged != [] then AllDischarged
    else if r.reaching == [] then BySuite(suite)
    else ByGroups(Evaluate(GroupsOf(r.reaching, key), run, observe))
  }

  /** A conclusive group run tells whether one of its targets kills. */
  ghost predicate Faithful(run: Run, kills: Target -> bool)
  {
    && (forall g :: run(g).Killed? ==> exists t :: t in g && kills(t))
    && (forall g, t :: run(g).Survived? && t in g ==> !kills(t))
  }

  lemma GroupsDecide(targets: seq<Target>, key: Target -> string, run: Run, observe: Observe, kills: Target -> bool)
    requires Faithful(run, kills)
    ensures
      var v := Evaluate(GroupsOf(targets, key), run, observe);
      && (v.KilledBy? ==> exists t :: t in targets && kills(t))
      && (v.SurvivedAll? ==> forall t :: t in targets ==> !kills(t))
      && ((forall g :: g in GroupsOf(targets, key) ==> run(g).Killed? || run(g).Survived?) ==>
           (v.KilledBy? <==> exists t :: t in targets && kills(t)))
  {
    hide GroupsOf;
    var groups := GroupsOf(targets, key);
    var v := Evaluate(groups, run, observe);
    GroupMembers(targets, key);
    VerdictIsJustified(groups, run, observe);
    if v.KilledBy? {
      var g :| g in groups && run(g).Killed?;
      var t :| t in g && kills(t);
      assert t in targets;
    }
    if v.SurvivedAll? {
      forall t | t in targets ensures !kills(t) {
        var g :| g in groups && t in g;
        assert run(g).Survived?;
      }
    }
    if forall g :: g in groups ==> run(g).Killed? || run(g).Survived? {
      ClassIsOfAll(groups, run, observe);
    }
  }

  /** Pruning and batching agree with running every target.  A kill is due to one of the targets; a
      mutant that survives, is discharged or is unreached is killed by none of them; and with
      conclusive runs the routed mutant is killed exactly when some target kills it. */
  lemma EvaluationAgreesWithBruteForce(m: Mutant, targets: seq<Target>, instrumented: seq<FileCoverage>,
                                       suites: map<string, Suite>, probes: map<string, SuiteProbe>,
                                       key: Target -> string, run: Run, observe: Observe, suite: Outcome,
                                       kills: Target -> bool)
    requires CanonicalEvidence(targets) && Explained(m, targets, instrumented, kills) && Faithful(run, kills)
    ensures
      var r := FullRoute(m, targets, instrumented, suites, probes);
      var v := EvaluateSeed(r, key, run, observe, suite);
      && (v.ByGroups? && v.verdict.KilledBy? ==> exists t :: t in targets && kills(t))
      && ((v.ByGroups? && v.verdict.SurvivedAll?) || v.AllDischarged? || v.Unreached? || v.BySuite? ==>
           forall t :: t in targets ==> !kills(t))
      && (v.ByGroups? && (forall g :: g in GroupsOf(r.reaching, key) ==> run(g).Killed? || run(g).Survived?) ==>
           (v.verdict.KilledBy? <==> exists t :: t in targets && kills(t)))
  {
    hide FullRoute, GroupsOf, Evaluate, Explained, CanonicalEvidence, Faithful;
    var r := FullRoute(m, targets, instrumented, suites, probes);
    NoKillerIsLost(m, targets, instrumented, suites, probes, kills);
    GroupsDecide(r.reaching, key, run, observe, kills);
  }
}
