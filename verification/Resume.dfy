/** The controller of a run's checkpoint (internal/assure/resume.go): how a new baseline is turned
    into a journal suffix, and what saving, completing and disabling leave for the next process. */
module Resume {
  import opened Wrappers
  import opened Ordering
  import opened Checkpoint
  import opened Journal
  import opened CrashRuns

  // ---- Diff: the units of `next` that `previous` lacks ----

  ghost predicate Extends<V(!new)>(previous: seq<Keyed<V>>, next: seq<Keyed<V>>)
  {
    && DistinctIds(previous) && DistinctIds(next)
    && (forall u :: u in next && u.id in Ids(previous) ==> u in previous)
    && Ids(previous) <= Ids(next)
  }

  function Added<V>(next: seq<Keyed<V>>, known: set<string>): (added: seq<Keyed<V>>)
    ensures |added| <= |next|
  {
    if next == [] then []
    else (if next[0].id in known then [] else [next[0]]) + Added(next[1..], known)
  }

  lemma {:induction false} AddedMembers<V(!new)>(next: seq<Keyed<V>>, known: set<string>)
    ensures forall u :: u in Added(next, known) <==> u in next && u.id !in known
  {
    if next != [] {
      AddedMembers(next[1..], known);
      assert next == [next[0]] + next[1..];
    }
  }

  lemma {:induction false} AddedDistinct<V(!new)>(next: seq<Keyed<V>>, known: set<string>)
    requires DistinctIds(next)
    ensures DistinctIds(Added(next, known))
  {
    if next != [] {
      AddedDistinct(next[1..], known);
      AddedMembers(next[1..], known);
      var rest := Added(next[1..], known);
      forall i | 0 <= i < |rest| ensures rest[i].id != next[0].id {
        assert rest[i] in rest;
        assert rest[i] in next[1..];
      }
    }
  }

  lemma {:induction false} AddedAppend<V(!new)>(next: seq<Keyed<V>>, u: Keyed<V>, known: set<string>)
    ensures Added(next + [u], known) == Added(next, known) + (if u.id in known then [] else [u])
  {
    var all, last := next + [u], if u.id in known then [] else [u];
    if next == [] {
      assert all == [u] && [u][1..] == [] && Added<V>([], known) == [];
      assert Added([u], known) == last + [];
    } else {
      assert all[0] == next[0] && all[1..] == next[1..] + [u];
      AddedAppend(next[1..], u, known);
      var first := if next[0].id in known then [] else [next[0]];
      assert first + (Added(next[1..], known) + last) == first + Added(next[1..], known) + last;
    }
  }

  lemma {:induction false} IdsCount<V(!new)>(s: seq<Keyed<V>>)
    requires DistinctIds(s)
    ensures |Ids(s)| == |s|
  {
    if s != [] {
      var front, u := s[..|s| - 1], s[|s| - 1];
      IdsCount(front);
      assert s == front + [u];
      IdsAppend(front, u);
      assert u.id !in Ids(front);
    }
  }

  lemma SubsetByCount<T>(a: set<T>, b: set<T>)
    requires a <= b && |a| == |b|
    ensures a == b
  {
    assert |b - a| == |b| - |a|;
  }

  lemma IdsMember<V(!new)>(s: seq<Keyed<V>>, id: string)
    ensures id in Ids(s) <==> exists u :: u in s && u.id == id
  {
    if id in Ids(s) {
      var i :| 0 <= i < |s| && s[i].id == id;
      assert s[i] in s;
    }
  }

  lemma AddedIds<V(!new)>(next: seq<Keyed<V>>, known: set<string>)
    ensures Ids(Added(next, known)) == Ids(next) - known
  {
    AddedMembers(next, known);
    forall id ensures id in Ids(Added(next, known)) <==> id in Ids(next) - known {
      IdsMember(next, id);
      IdsMember(Added(next, known), id);
      if id in Ids(next) - known {
        var u :| u in next && u.id == id;
        assert u in Added(next, known);
      }
    }
  }

  /** The count the diff compares decides whether any saved unit went missing. */
  lemma CountDecides<V(!new)>(previous: seq<Keyed<V>>, next: seq<Keyed<V>>)
    requires DistinctIds(previous) && DistinctIds(next)
    ensures |Ids(next)| == |Ids(previous)| + |Added(next, Ids(previous))| <==> Ids(previous) <= Ids(next)
  {
    var known, all := Ids(previous), Ids(next);
    AddedDistinct(next, known);
    IdsCount(Added(next, known));
    AddedIds(next, known);
    assert all == all * known + (all - known);
    assert |all| == |all * known| + |all - known|;
    if known <= all {
      assert all * known == known;
    }
    if |all * known| == |known| {
      SubsetByCount(all * known, known);
    }
  }

  lemma DistinctMultiset<V(!new)>(a: seq<Keyed<V>>, b: seq<Keyed<V>>)
    requires DistinctIds(a) && DistinctIds(b)
    requires forall u :: u in a <==> u in b
    ensures multiset(a) == multiset(b)
  {
    forall u ensures multiset(a)[u] == multiset(b)[u] {
      DistinctOccursOnce(a, u);
      DistinctOccursOnce(b, u);
      assert u in a <==> u in multiset(a);
      assert u in b <==> u in multiset(b);
    }
  }

  /** Nothing lost, changed or duplicated: the saved units and the suffix are the next units. */
  lemma SuffixCompletes<V(!new)>(previous: seq<Keyed<V>>, next: seq<Keyed<V>>)
    requires Extends(previous, next)
    ensures var suffix := Sort(Added(next, Ids(previous)), ById);
      DistinctIds(previous + suffix) && multiset(previous + suffix) == multiset(next)
  {
    var known := Ids(previous);
    var added := Added(next, known);
    var suffix := Sort(added, ById);
    AddedMembers(next, known);
    AddedDistinct(next, known);
    SortPermutes(added, ById);
    SortMembers(added, ById);
    DistinctIdsPermute(added, suffix);
    var all := previous + suffix;
    forall i, j | 0 <= i < j < |all| ensures all[i].id != all[j].id {
      if i < |previous| <= j {
        assert all[j] in added;
        IdsMember(previous, all[i].id);
      }
    }
    forall u ensures u in all <==> u in next {
      IdsMember(previous, u.id);
      IdsMember(next, u.id);
      if u in previous {
        var v :| v in next && v.id == u.id;
      }
    }
    DistinctMultiset(all, next);
  }

  /** The saved units by identifier; fails on a repeated one. */
  method IndexUnits<V(!new)>(units: seq<Keyed<V>>) returns (index: map<string, Keyed<V>>, ok: bool)
    ensures ok <==> DistinctIds(units)
    ensures ok ==> index.Keys == Ids(units)
    ensures ok ==> forall id :: id in index ==> index[id] in units && index[id].id == id
  {
    index := map[];
    for i := 0 to |units|
      invariant DistinctIds(units[..i]) && index.Keys == Ids(units[..i])
      invariant forall id :: id in index ==> index[id] in units && index[id].id == id
    {
      var unit := units[i];
      IdsAppend(units[..i], unit);
      assert units[..i + 1] == units[..i] + [unit];
      if unit.id in index {
        return map[], false;
      }
      assert unit in units;
      index := index[unit.id := unit];
    }
    assert units[..|units|] == units;
    ok := true;
  }

  lemma DistinctMember<V(!new)>(s: seq<Keyed<V>>, u: Keyed<V>, v: Keyed<V>)
    requires DistinctIds(s) && u in s && v in s && u.id == v.id
    ensures u == v
  {
    var i :| 0 <= i < |s| && s[i] == u;
    var j :| 0 <= j < |s| && s[j] == v;
  }

  /** The units of `next` that the index lacks, unless one repeats or differs from its saved form. */
  method ScanNext<V(==,!new)>(before: map<string, Keyed<V>>, next: seq<Keyed<V>>)
    returns (suffix: seq<Keyed<V>>, seen: set<string>, ok: bool)
    ensures ok <==> DistinctIds(next) && forall i :: 0 <= i < |next| && next[i].id in before ==> before[next[i].id] == next[i]
    ensures ok ==> seen == Ids(next) && suffix == Added(next, before.Keys)
  {
    suffix, seen := [], {};
    for i := 0 to |next|
      invariant DistinctIds(next[..i]) && seen == Ids(next[..i])
      invariant suffix == Added(next[..i], before.Keys)
      invariant forall j :: 0 <= j < i && next[j].id in before ==> before[next[j].id] == next[j]
    {
      var unit := next[i];
      IdsAppend(next[..i], unit);
      AddedAppend(next[..i], unit, before.Keys);
      assert next[..i + 1] == next[..i] + [unit];
      if unit.id in seen {
        return [], {}, false;
      }
      seen := seen + {unit.id};
      if unit.id in before {
        if before[unit.id] != unit {
          return [], {}, false;
        }
        continue;
      }
      suffix := suffix + [unit];
    }
    assert next[..|next|] == next;
    ok := true;
  }

  /** Looking saved units up in the index compares them with the saved units themselves. */
  lemma IndexCompares<V(!new)>(previous: seq<Keyed<V>>, next: seq<Keyed<V>>, before: map<string, Keyed<V>>)
    requires DistinctIds(previous) && before.Keys == Ids(previous)
    requires forall id :: id in before ==> before[id] in previous && before[id].id == id
    ensures (forall i :: 0 <= i < |next| && next[i].id in before ==> before[next[i].id] == next[i])
       <==> (forall u :: u in next && u.id in Ids(previous) ==> u in previous)
  {
    forall i | 0 <= i < |next| && next[i].id in before && next[i] in previous ensures before[next[i].id] == next[i] {
      DistinctMember(previous, before[next[i].id], next[i]);
    }
    forall i | 0 <= i < |next| && next[i].id in before && before[next[i].id] == next[i] ensures next[i] in previous {
    }
  }

  method JournalSuffix<V(==,!new)>(previous: seq<Keyed<V>>, next: seq<Keyed<V>>) returns (suffix: seq<Keyed<V>>, ok: bool)
    ensures ok <==> Extends(previous, next)
    ensures ok ==> suffix == Sort(Added(next, Ids(previous)), ById)
  {
    var before, distinct := IndexUnits(previous);
    if !distinct {
      return [], false;
    }
    var seen, agrees;
    suffix, seen, agrees := ScanNext(before, next);
    IndexCompares(previous, next, before);
    if !agrees {
      return [], false;
    }
    CountDecides(previous, next);
    IdsCount(previous);
    if |seen| != |before.Keys| + |suffix| {
      return [], false;
    }
    suffix := Sort(suffix, ById);
    ok := true;
  }

  ghost predicate SameHeader(previous: Baseline, next: Baseline)
  {
    && previous.buildVetComplete && next.buildVetComplete && !previous.complete && !next.complete
    && previous.evidence == next.evidence && previous.findings == next.findings
  }

  ghost predicate TargetsJournaled(previous: Baseline, next: Baseline)
  {
    && SameHeader(previous, next) && previous.suites == next.suites
    && |next.targets| > |previous.targets| && Extends(previous.targets, next.targets)
  }

  ghost predicate SuitesJournaled(previous: Baseline, next: Baseline)
  {
    && SameHeader(previous, next) && previous.targets == next.targets
    && |next.suites| > |previous.suites| && Extends(previous.suites, next.suites)
  }

  method BaselineJournalSuffix(previous: Baseline, next: Baseline) returns (suffix: seq<Keyed<TargetBody>>, ok: bool)
    ensures ok <==> TargetsJournaled(previous, next)
    ensures ok ==> suffix == Sort(Added(next.targets, Ids(previous.targets)), ById)
  {
    if !previous.buildVetComplete || !next.buildVetComplete || previous.complete || next.complete ||
       previous.evidence != next.evidence || previous.findings != next.findings ||
       previous.suites != next.suites || |next.targets| <= |previous.targets| {
      return [], false;
    }
    suffix, ok := JournalSuffix(previous.targets, next.targets);
  }

  method SuiteJournalSuffix(previous: Baseline, next: Baseline) returns (suffix: seq<Keyed<SuiteBody>>, ok: bool)
    ensures ok <==> SuitesJournaled(previous, next)
    ensures ok ==> suffix == Sort(Added(next.suites, Ids(previous.suites)), ById)
  {
    if !previous.buildVetComplete || !next.buildVetComplete || previous.complete || next.complete ||
       previous.evidence != next.evidence || previous.findings != next.findings ||
       previous.targets != next.targets || |next.suites| <= |previous.suites| {
      return [], false;
    }
    suffix, ok := JournalSuffix(previous.suites, next.suites);
  }

  // ---- Replay of a suffix ----

  function TargetUnits(s: seq<Keyed<TargetBody>>): seq<Unit>
  {
    if s == [] then [] else [TargetUnit(s[0])] + TargetUnits(s[1..])
  }

  function SuiteUnits(s: seq<Keyed<SuiteBody>>): seq<Unit>
  {
    if s == [] then [] else [SuiteUnit(s[0])] + SuiteUnits(s[1..])
  }

  lemma {:induction false} ReplayTargets(state: State, suffix: seq<Keyed<TargetBody>>)
    requires DistinctIds(state.baseline.targets + suffix)
    ensures AcceptsAll(state, TargetUnits(suffix))
    ensures ApplyAll(state, TargetUnits(suffix)) ==
      state.(baseline := state.baseline.(targets := state.baseline.targets + suffix))
    decreases |suffix|
  {
    var targets := state.baseline.targets;
    if suffix == [] {
      assert targets + [] == targets;
    } else {
      assert (targets + suffix)[|targets|] == suffix[0];
      assert suffix[0].id !in Ids(targets) by {
        forall i | 0 <= i < |targets| ensures targets[i].id != suffix[0].id {
          assert (targets + suffix)[i] == targets[i];
        }
      }
      assert targets + suffix == (targets + [suffix[0]]) + suffix[1..];
      ReplayTargets(ApplyUnit(state, TargetUnit(suffix[0])), suffix[1..]);
    }
  }

  lemma {:induction false} ReplaySuites(state: State, suffix: seq<Keyed<SuiteBody>>)
    requires DistinctIds(state.baseline.suites + suffix)
    ensures AcceptsAll(state, SuiteUnits(suffix))
    ensures ApplyAll(state, SuiteUnits(suffix)) ==
      state.(baseline := state.baseline.(suites := state.baseline.suites + suffix))
    decreases |suffix|
  {
    var suites := state.baseline.suites;
    if suffix == [] {
      assert suites + [] == suites;
    } else {
      assert (suites + suffix)[|suites|] == suffix[0];
      assert suffix[0].id !in Ids(suites) by {
        forall i | 0 <= i < |suites| ensures suites[i].id != suffix[0].id {
          assert (suites + suffix)[i] == suites[i];
        }
      }
      assert suites + suffix == (suites + [suffix[0]]) + suffix[1..];
      ReplaySuites(ApplyUnit(state, SuiteUnit(suffix[0])), suffix[1..]);
    }
  }

  /** What the journal is asked to say: the next baseline, with the routing field that the diff never
      looks at still the previous one. */
  function Journaled(state: State, next: Baseline): State
  {
    state.(baseline := next.(routing := state.baseline.routing))
  }

  /** Neither baseline of a diff is complete, so between valid states the routing fields agree. */
  lemma ValidRoutingAgrees(state: State, next: Baseline)
    requires Valid(state) && SameHeader(state.baseline, next)
    ensures Valid(state.(baseline := next)) ==> Journaled(state, next) == state.(baseline := next)
  {
  }

  /** Replaying the target suffix over the previous state gives the next state up to order; between
      valid states that includes the routing field. */
  lemma TargetDiffReplays(state: State, next: Baseline)
    requires TargetsJournaled(state.baseline, next)
    ensures var units := TargetUnits(Sort(Added(next.targets, Ids(state.baseline.targets)), ById));
      && AcceptsAll(state, units)
      && SameUnits(ApplyAll(state, units), Journaled(state, next))
      && (Valid(state) && Valid(state.(baseline := next)) ==>
           Canonical(ApplyAll(state, units)) == Canonical(state.(baseline := next)))
  {
    var suffix := Sort(Added(next.targets, Ids(state.baseline.targets)), ById);
    SuffixCompletes(state.baseline.targets, next.targets);
    ReplayTargets(state, suffix);
    SameUnitsSymmetric(ApplyAll(state, TargetUnits(suffix)), Journaled(state, next));
    if Valid(state) && Valid(state.(baseline := next)) {
      ValidRoutingAgrees(state, next);
      SameUnitsSameCanonical(state.(baseline := next), ApplyAll(state, TargetUnits(suffix)));
    }
  }

  lemma SuiteDiffReplays(state: State, next: Baseline)
    requires SuitesJournaled(state.baseline, next)
    ensures var units := SuiteUnits(Sort(Added(next.suites, Ids(state.baseline.suites)), ById));
      && AcceptsAll(state, units)
      && SameUnits(ApplyAll(state, units), Journaled(state, next))
      && (Valid(state) && Valid(state.(baseline := next)) ==>
           Canonical(ApplyAll(state, units)) == Canonical(state.(baseline := next)))
  {
    var suffix := Sort(Added(next.suites, Ids(state.baseline.suites)), ById);
    SuffixCompletes(state.baseline.suites, next.suites);
    ReplaySuites(state, suffix);
    SameUnitsSymmetric(ApplyAll(state, SuiteUnits(suffix)), Journaled(state, next));
    if Valid(state) && Valid(state.(baseline := next)) {
      ValidRoutingAgrees(state, next);
      SameUnitsSameCanonical(state.(baseline := next), ApplyAll(state, SuiteUnits(suffix)));
    }
  }

  // ---- The controller ----

  /** How the store's operations turn out in one call. */
  datatype Outcomes = Outcomes(put: PutReach, written: nat -> nat, synced: nat -> bool, delete: DeleteReach)

  /** The whole line of the unit reaches the journal. */
  ghost predicate Whole(k: Codec, id: string, digest: string, unit: Unit, written: nat)
  {
    written >= |Line(k, id, digest, unit)| + 1
  }

  /** Every unit is appended and synchronised. */
  ghost predicate AllJournaled(k: Codec, id: string, digest: string, units: seq<Unit>, out: Outcomes)
  {
    forall i :: 0 <= i < |units| ==> Whole(k, id, digest, units[i], out.written(i)) && out.synced(i)
  }

  /** What is appended for a new baseline, when it only extends the previous one. */
  ghost function Extension(previous: Baseline, next: Baseline): Option<seq<Unit>>
  {
    if TargetsJournaled(previous, next) then Some(TargetUnits(Sort(Added(next.targets, Ids(previous.targets)), ById)))
    else if SuitesJournaled(previous, next) then Some(SuiteUnits(Sort(Added(next.suites, Ids(previous.suites)), ById)))
    else None
  }

  lemma {:induction false} AcceptsPrefix(s: State, units: seq<Unit>, i: nat)
    requires AcceptsAll(s, units) && i < |units|
    ensures AcceptsAll(s, units[..i]) && Accepts(ApplyAll(s, units[..i]), units[i])
    ensures ApplyAll(s, units[..i + 1]) == ApplyUnit(ApplyAll(s, units[..i]), units[i])
    decreases i
  {
    assert units[..i + 1] == units[..i] + [units[i]];
    if i > 0 {
      assert units[..i] == [units[0]] + units[1..][..i - 1];
      AcceptsPrefix(ApplyUnit(s, units[0]), units[1..], i - 1);
    }
    ApplyAllAppend(s, units[..i], units[i]);
  }

  /** A base write, as far as it got: what holds if it stops before the rename, after it, or not at all. */
  lemma PutRun(k: Codec, id: string, c: Config, next: State, w: Layout) returns (renamed: Layout, done: Layout)
    requires Lawful(k) && c.phase == Putting(next, false) && Inv(k, id, c, w)
    ensures Inv(k, id, c.(phase := Failed(Some(next))), w)
    ensures var text := BaseText(k, next); var d := Renamed(c.disk, text);
      && Inv(k, id, Config(d, k.hash(text), c.acked, Failed(Some(next))), renamed)
      && Inv(k, id, Config(JournalRemoved(d), k.hash(text), Some(next), Idle), done)
  {
    var text := BaseText(k, next);
    var c2 := Config(Renamed(c.disk, text), k.hash(text), c.acked, Putting(next, true));
    renamed := PutRenamesKeeps(k, id, c, c2, w);
    var c3 := Config(JournalRemoved(c2.disk), k.hash(text), Some(next), Idle);
    done := PutCompletesKeeps(k, id, c2, c3, renamed);
    QuietStepsKeep(k, id, c, c.(phase := Failed(Some(next))), w);
    QuietStepsKeep(k, id, c2, c2.(phase := Failed(Some(next))), renamed);
  }

  /** The state a process starts from: what it recovers, one attempt later, or a cold one. */
  function Started(id: string, r: Recovery): State
  {
    if r.Found? then r.state.(attempts := r.state.attempts + 1) else Cold(id)
  }

  /** Recovery gives out valid states of the asked identity only. */
  lemma StartedIsValid(k: Codec, id: string, disk: Disk)
    requires ValidSha256(id)
    ensures Valid(Started(id, Recover(k, id, disk))) && Started(id, Recover(k, id, disk)).inputDigest == id
  {
    var r := Recover(k, id, disk);
    if r.Found? {
      var base := k.decodeState(disk.base.value).value;
      if disk.journal.Some? && LastNewline(disk.journal.value) >= 0 {
        ReplayKeepsIdentity(k, id, k.hash(disk.base.value), Split(disk.journal.value[..LastNewline(disk.journal.value)]), base, false);
      }
      assert Valid(r.state.(attempts := r.state.attempts + 1));
    }
  }

  lemma {:induction false} ReplayKeepsIdentity(k: Codec, id: string, digest: string, lines: seq<string>, s: State, seen: bool)
    ensures Replay(k, id, digest, lines, s, seen).Some? ==>
      Replay(k, id, digest, lines, s, seen).value.inputDigest == s.inputDigest
    decreases |lines|
  {
    if lines != [] && Replay(k, id, digest, lines, s, seen).Some? {
      var r := k.decodeRecord(lines[0]).value;
      if r.baseDigest != digest {
        ReplayKeepsIdentity(k, id, digest, lines[1..], s, false);
      } else {
        ReplayKeepsIdentity(k, id, digest, lines[1..], ApplyUnit(s, UnitOf(r)), true);
      }
    }
  }

  /** A freshly published base stands for its state, whatever was on the disk before. */
  lemma PublishedStands(k: Codec, id: string, s: State) returns (w: Layout)
    requires Lawful(k) && Valid(s) && s.inputDigest == id
    ensures Inv(k, id, Config(Disk(Some(BaseText(k, s)), None), k.hash(BaseText(k, s)), Some(s), Idle), w)
  {
    w := Layout(Some(Canonical(s)), [], [], "");
    CanonicalValid(s);
    CanonicalSameUnits(s);
    assert w.stale + Owned(Canonical(s), []) == [];
  }

  class RunCheckpoint {
    const codec: Codec
    const id: string
    const store: CheckpointStore
    var state: State
    var enabled: bool
    ghost var layout: Layout

    /** The store as the machine of `CrashRuns` sees it, between or within operations. */
    ghost function At(acked: State, phase: Phase): Config
      reads store
    {
      Config(store.View(), store.baseDigest, Some(acked), phase)
    }

    /** While enabled, what is on disk stands for the state in memory. */
    ghost predicate Consistent()
      reads this`enabled, this`state, this`layout, store
    {
      && store.codec == codec && Lawful(codec) && ValidSha256(id)
      && (enabled ==> Inv(codec, id, At(state, Idle), layout))
    }

    /** What the next process would be given. */
    ghost function Recovered(): Recovery
      reads store
    {
      Recover(codec, id, store.View())
    }

    lemma ConsistentRecovers()
      requires Consistent() && enabled
      ensures Recovered() == Found(Canonical(state))
    {
      RecoverReadsLayout(codec, id, store.View(), layout, Some(state));
    }

    /** The disk stands for this state, valid or not, with no line torn. */
    ghost predicate Settled(x: State)
      reads this`layout, store
    {
      && DiskIs(codec, id, store.View(), layout) && Tidy(id, layout) && Stands(layout, x)
      && layout.stale == [] && layout.tail == "" && store.baseDigest == codec.hash(BaseText(codec, layout.base.value))
    }

    lemma SettledIsIdle(x: State)
      ensures Inv(codec, id, At(x, Idle), layout) <==> Settled(x) && Valid(x)
    {
    }

    lemma FailedRecovers(acked: State, flight: State)
      requires Lawful(codec) && Inv(codec, id, At(acked, Failed(Some(flight))), layout)
      ensures Recovered() in {Found(Canonical(acked)), Found(Canonical(flight))}
    {
      if Recoverable(layout, Some(acked)) {
        RecoverReadsLayout(codec, id, store.View(), layout, Some(acked));
      } else {
        RecoverReadsLayout(codec, id, store.View(), layout, Some(flight));
      }
    }

    constructor (checkpoints: CheckpointStore, digest: string)
      ensures store == checkpoints && codec == checkpoints.codec && id == digest && !enabled
    {
      codec, id, store := checkpoints.codec, digest, checkpoints;
      state, enabled := Cold(digest), false;
    }

    /** openRunCheckpoint on any disk: recover, count the attempt, publish a base before anything is
        appended.  What recovery refuses is deleted, and the process starts cold, whether or not the
        deletion gets through. */
    method Open(put: PutReach, discard: DeleteReach, delete: DeleteReach)
      requires store.codec == codec && Lawful(codec) && ValidSha256(id)
      modifies this, store
      ensures Consistent() && state == Started(id, old(Recovered()))
      ensures old(Recovered()).Found? ==>
        state == old(Recovered()).state.(attempts := old(Recovered()).state.attempts + 1)
      ensures !old(Recovered()).Found? ==>
        && state.inputDigest == id && state.attempts == 1 && state.mutation.None?
        && state.baseline.targets == [] && state.baseline.suites == []
      ensures enabled <==> put.PutComplete?
      ensures enabled ==> Recovered() == Found(Canonical(state))
    {
      hide Recover, Valid, Inv, Canonical;
      StartedIsValid(codec, id, store.View());
      var recovered := store.GetCheckpoint(id);
      if recovered.Corrupt? {
        var _ := store.DeleteCheckpoint(discard);
      }
      state := if recovered.Found? then recovered.state.(attempts := recovered.state.attempts + 1) else Cold(id);
      ghost var published := PublishedStands(codec, id, state);
      enabled := store.PutCheckpoint(id, state, put);
      if enabled {
        layout := published;
        assert store.View() == Disk(Some(BaseText(codec, state)), None);
        ConsistentRecovers();
      } else {
        var _ := store.DeleteCheckpoint(delete);
      }
    }

    /** disableCheckpointLocked after an operation on `acked` towards `flight` failed. */
    method Disable(ghost acked: State, ghost flight: State, delete: DeleteReach)
      requires Lawful(codec) && store.codec == codec && Inv(codec, id, At(acked, Failed(Some(flight))), layout)
      modifies this`enabled, store
      ensures !enabled
      ensures Recovered() in {Found(Canonical(acked)), Found(Canonical(flight)), Absent}
      ensures !delete.BeforeBase? ==> Recovered() == Absent
    {
      FailedRecovers(acked, flight);
      enabled := false;
      var _ := store.DeleteCheckpoint(delete);
    }

    /** persistLocked, after the state in memory moved on from `acked`. */
    method Persist(ghost acked: State, out: Outcomes)
      requires store.codec == codec && Lawful(codec) && ValidSha256(id)
      requires enabled ==> Inv(codec, id, At(acked, Idle), layout)
      requires state.inputDigest == id && state.attempts == acked.attempts
      modifies this`enabled, this`layout, store
      ensures Consistent()
      ensures enabled <==> old(enabled) && Valid(state) && out.put.PutComplete?
      ensures old(enabled) && !enabled ==>
        Recovered() in {Found(Canonical(acked)), Found(Canonical(state)), Absent}
      ensures old(enabled) && !enabled && !out.delete.BeforeBase? ==> Recovered() == Absent
    {
      if !enabled {
        return;
      }
      ghost var renamed, done, flight := PersistPlan(acked);
      hide Inv, Valid, Canonical, Recover;
      var ok := store.PutCheckpoint(id, state, out.put);
      if ok {
        layout := done;
      } else {
        layout := if Valid(state) && out.put.AfterRename? then renamed else layout;
        Disable(acked, flight, out.delete);
      }
    }

    /** How far a base write of `state` can get; an invalid state is refused before the disk is touched. */
    lemma PersistPlan(acked: State) returns (renamed: Layout, done: Layout, flight: State)
      requires Lawful(codec) && Inv(codec, id, At(acked, Idle), layout)
      requires state.inputDigest == id && state.attempts == acked.attempts
      ensures flight == if Valid(state) then state else acked
      ensures Inv(codec, id, At(acked, Failed(Some(flight))), layout)
      ensures Valid(state) ==> var text := BaseText(codec, state); var d := Renamed(store.View(), text);
        && Inv(codec, id, Config(d, codec.hash(text), Some(acked), Failed(Some(state))), renamed)
        && Inv(codec, id, Config(JournalRemoved(d), codec.hash(text), Some(state), Idle), done)
    {
      renamed, done, flight := layout, layout, acked;
      if Valid(state) {
        var c := At(acked, Putting(state, false));
        PutBeginsKeeps(codec, id, At(acked, Idle), c, layout);
        renamed, done := PutRun(codec, id, c, state, layout);
        flight := state;
      }
    }

    /** One journal line; nothing but the newness of its unit is asked. */
    method AppendOne(unit: Unit, ghost acked: State, written: nat, synced: bool) returns (ok: bool)
      requires Lawful(codec) && store.codec == codec && Settled(acked) && Accepts(acked, unit) && Warm(acked)
      modifies this`layout, store
      ensures store.baseDigest == old(store.baseDigest)
      ensures ok <==> Whole(codec, id, store.baseDigest, unit, written) && synced
      ensures ok ==> Settled(ApplyUnit(acked, unit))
      ensures Recovered() == Outcome(if Whole(codec, id, store.baseDigest, unit, written) then ApplyUnit(acked, unit) else acked)
    {
      hide Outcome, Tidy, Stands, Recover;
      ghost var w, disk := layout, store.View();
      ghost var line := Line(codec, id, store.baseDigest, unit);
      LineReads(codec, id, store.baseDigest, unit);
      assert store.baseDigest != "";
      ok := store.AppendRecord(id, unit, written, synced);
      if written >= |line + "\n"| {
        LineEnds(codec, id, disk, w, unit, acked, 0);
        assert (line + "\n")[0..|line| + 1] == line + "\n";
        layout := Layout(w.base, [], w.current + [unit], "");
        RecoverReadsAny(codec, id, store.View(), layout, ApplyUnit(acked, unit));
      } else {
        TailGrows(codec, id, disk, w, line, 0, written);
        assert (line + "\n")[0..written] == (line + "\n")[..written];
        layout := w.(tail := line[..written]);
        TornStands(codec, id, w, line[..written], acked);
        RecoverReadsAny(codec, id, store.View(), layout, acked);
      }
    }

    /** Append every unit; on a failure, delete and disable. */
    method JournalUnits(units: seq<Unit>, ghost acked: State, out: Outcomes)
      requires Lawful(codec) && store.codec == codec && enabled
      requires Settled(acked) && AcceptsAll(acked, units) && Warm(acked)
      modifies this`layout, this`enabled, store
      ensures enabled <==> AllJournaled(codec, id, old(store.baseDigest), units, out)
      ensures enabled ==> Settled(ApplyAll(acked, units))
      ensures !enabled && !out.delete.BeforeBase? ==> Recovered() == Absent
      ensures !enabled && out.delete.BeforeBase? ==>
        exists i :: 0 <= i <= |units| && Recovered() == Outcome(ApplyAll(acked, units[..i]))
    {
      hide Settled, Outcome, Recover, Whole;
      for i := 0 to |units|
        invariant enabled && Settled(ApplyAll(acked, units[..i])) && store.baseDigest == old(store.baseDigest)
        invariant AllJournaled(codec, id, store.baseDigest, units[..i], out)
      {
        AcceptsPrefix(acked, units, i);
        ApplyAllKeeps(acked, units[..i]);
        var ok := AppendOne(units[i], ApplyAll(acked, units[..i]), out.written(i), out.synced(i));
        if !ok {
          enabled := false;
          var _ := store.DeleteCheckpoint(out.delete);
          DeletionRecovers(codec, id, store.View());
          assert !AllJournaled(codec, id, old(store.baseDigest), units, out);
          assert units[..i + 1] == units[..i + 1];
          return;
        }
      }
      assert units[..|units|] == units;
    }

    /** saveBaseline.  Whichever way it is stored, an enabled controller leaves exactly the new baseline
        to the next process, if it is valid; a journaled baseline is not checked before, and recovery
        then refuses an invalid one. */
    method SaveBaseline(next: Baseline, out: Outcomes)
      requires Consistent()
      modifies this, store
      ensures state == if old(enabled) then old(state).(baseline := CanonicalBaseline(next)) else old(state)
      ensures old(enabled) ==> SameBaseline(state.baseline, next)
      ensures old(enabled) ==>
        var units := Extension(old(state).baseline, state.baseline);
        enabled <==> if units.Some? then AllJournaled(codec, id, old(store.baseDigest), units.value, out)
                     else Valid(state) && out.put.PutComplete?
      ensures enabled ==> (Recovered() == Found(Canonical(state)) <==> Valid(state))
      ensures old(enabled) && !enabled && !out.delete.BeforeBase? ==> Recovered() == Absent
      ensures !enabled || Valid(state) ==> Consistent()
    {
      hide Settled, Outcome, Recover, Inv, Canonical, CanonicalBaseline, Valid, SameUnits, SameBaseline;
      if !enabled {
        return;
      }
      ghost var acked := state;
      SettledIsIdle(acked);
      var previous, saved := state.baseline, CanonicalBaseline(next);
      SavedIsSame(next);
      state := state.(baseline := saved);
      var targets, targetsOk := BaselineJournalSuffix(previous, saved);
      if targetsOk {
        TargetDiffReplays(acked, saved);
        JournalUnits(TargetUnits(targets), acked, out);
        JournaledBaseline(acked, saved, TargetUnits(targets));
        return;
      }
      var suites, suitesOk := SuiteJournalSuffix(previous, saved);
      if suitesOk {
        SuiteDiffReplays(acked, saved);
        JournalUnits(SuiteUnits(suites), acked, out);
        JournaledBaseline(acked, saved, SuiteUnits(suites));
        return;
      }
      IdentityKept(acked);
      Persist(acked, out);
      if enabled {
        ConsistentRecovers();
        SettledIsIdle(state);
      }
    }

    /** The disk of an idle controller is that of its identity. */
    lemma IdentityKept(acked: State)
      requires Settled(acked)
      ensures acked.inputDigest == id
    {
      ApplyAllKeeps(layout.base.value, layout.current);
    }

    /** After journaling, the disk stands for the new baseline, and recovery yields it when it is valid. */
    lemma JournaledBaseline(acked: State, saved: Baseline, units: seq<Unit>)
      requires Lawful(codec) && store.codec == codec && ValidSha256(id) && Valid(acked) && SameHeader(acked.baseline, saved)
      requires state == acked.(baseline := saved)
      requires SameUnits(ApplyAll(acked, units), Journaled(acked, saved))
      ensures enabled && Settled(ApplyAll(acked, units)) ==>
        && (Recovered() == Found(Canonical(state)) <==> Valid(state))
        && (Valid(state) ==> Consistent())
    {
      if enabled && Settled(ApplyAll(acked, units)) {
        var x := Journaled(acked, saved);
        SettledUpToOrder(ApplyAll(acked, units), x);
        RecoverReadsAny(codec, id, store.View(), layout, x);
        ValidRoutingAgrees(acked, saved);
        CanonicalSameUnits(state);
        ValidUpToOrder(Canonical(state), state);
        if Valid(x) {
          CanonicalValid(x);
        }
        SettledIsIdle(state);
      }
    }

    lemma SettledUpToOrder(x: State, y: State)
      requires Settled(x) && SameUnits(x, y)
      ensures Settled(y)
    {
      SameUnitsTransitive(ApplyAll(layout.base.value, layout.current), x, y);
    }

    /** Replace the mutant's result in memory, or add it. */
    method Remember(unit: Keyed<ResultBody>) returns (replaced: bool)
      requires state.mutation.Some?
      modifies this`state
      ensures replaced <==> unit.id in Ids(old(state).mutation.value.results)
      ensures state == old(state).(mutation := Some(Upserted(old(state).mutation.value, unit)))
    {
      var results := state.mutation.value.results;
      for index := 0 to |results|
        invariant state == old(state) && forall i :: 0 <= i < index ==> results[i].id != unit.id
      {
        if results[index].id == unit.id {
          PositionFirst(results, unit.id, index);
          state := state.(mutation := Some(state.mutation.value.(results := results[index := unit])));
          return true;
        }
      }
      PositionAbsent(results, unit.id);
      state := state.(mutation := Some(state.mutation.value.(results := results + [unit])));
      replaced := false;
    }

    method AppendDuplicate(unit: Keyed<ResultBody>, ghost acked: State, out: Outcomes)
      requires enabled && store.codec == codec && Lawful(codec)
      requires Inv(codec, id, At(acked, Idle), layout) && !Accepts(acked, ResultUnit(unit))
      modifies this`enabled, this`layout, store
      ensures
        var whole := Whole(codec, id, old(store.baseDigest), ResultUnit(unit), out.written(0));
        && (enabled <==> whole && out.synced(0))
        && Recovered() == if !enabled && !out.delete.BeforeBase? then Absent
                          else if whole then Corrupt else Found(Canonical(acked))
    {
      RejectsDuplicate(codec, id, At(acked, Idle), layout, ResultUnit(unit));
      SettledIsIdle(acked);
      ghost var w, disk := layout, store.View();
      ghost var line := Line(codec, id, store.baseDigest, ResultUnit(unit));
      LineReads(codec, id, store.baseDigest, ResultUnit(unit));
      hide Inv, Recover, Stands, Tidy;
      var ok := store.AppendRecord(id, ResultUnit(unit), out.written(0), out.synced(0));
      if out.written(0) <= |line| {
        TailGrows(codec, id, disk, w, line, 0, out.written(0));
        assert (line + "\n")[0..out.written(0)] == (line + "\n")[..out.written(0)];
        layout := w.(tail := line[..out.written(0)]);
        TornStands(codec, id, w, line[..out.written(0)], acked);
        RecoverReadsAny(codec, id, store.View(), layout, acked);
      }
      if !ok {
        enabled := false;
        var _ := store.DeleteCheckpoint(out.delete);
        DeletionRecovers(codec, id, store.View());
      }
    }

    /** The line of a mutant that is new, after the state in memory moved on from `acked`. */
    method AppendNew(unit: Keyed<ResultBody>, ghost acked: State, out: Outcomes)
      requires enabled && store.codec == codec && Lawful(codec) && ValidSha256(id) && Valid(acked) && acked.mutation.Some?
      requires Inv(codec, id, At(acked, Idle), layout) && unit.id !in Ids(acked.mutation.value.results)
      requires state == ApplyUnit(acked, ResultUnit(unit))
      modifies this`enabled, this`layout, store
      ensures
        var whole := Whole(codec, id, old(store.baseDigest), ResultUnit(unit), out.written(0));
        && (enabled <==> whole && out.synced(0))
        && (enabled && ResultOk(unit) ==> Consistent())
        && Recovered() == if !enabled && !out.delete.BeforeBase? then Absent
                          else if !whole then Found(Canonical(acked))
                          else if ResultOk(unit) then Found(Canonical(state)) else Corrupt
    {
      SettledIsIdle(acked);
      hide Settled, Inv, Recover, Canonical, Valid, Whole, ResultOk;
      var ok := AppendOne(ResultUnit(unit), acked, out.written(0), out.synced(0));
      SavedResult(acked, unit);
      if !ok {
        enabled := false;
        var _ := store.DeleteCheckpoint(out.delete);
        DeletionRecovers(codec, id, store.View());
      }
    }

    /** saveMutant.  The line is always appended, unchecked, and also for a mutant that was saved before;
        the next process resumes from the state in memory exactly when the mutant was new and its result
        valid, and otherwise finds a checkpoint it rejects. */
    method SaveMutant(mutant: string, body: ResultBody, out: Outcomes)
      requires Consistent()
      modifies this, store
      ensures !old(enabled) || old(state).mutation.None? ==> state == old(state) && enabled == old(enabled)
      ensures old(enabled) && old(state).mutation.Some? ==>
        state == old(state).(mutation := Some(Upserted(old(state).mutation.value, Keyed(mutant, body))))
      ensures old(enabled) && old(state).mutation.Some? ==>
        var was, now := old(state).mutation.value.results, state.mutation.value.results;
        && (forall u :: u in now <==> u == Keyed(mutant, body) || (u in was && u.id != mutant))
        && Ids(now) == Ids(was) + {mutant}
      ensures old(enabled) && old(state).mutation.Some? ==>
        var whole := Whole(codec, id, old(store.baseDigest), ResultUnit(Keyed(mutant, body)), out.written(0));
        var good := mutant !in Ids(old(state).mutation.value.results) && ResultOk(Keyed(mutant, body));
        && (enabled <==> whole && out.synced(0))
        && (enabled && good ==> Consistent())
        && Recovered() == if !enabled && !out.delete.BeforeBase? then Absent
                          else if !whole then Found(Canonical(old(state)))
                          else if good then Found(Canonical(state)) else Corrupt
    {
      if !enabled || state.mutation.None? {
        return;
      }
      hide Inv, Recover, Canonical, Valid, Whole, Upserted, ResultOk, DistinctIds;
      ghost var acked := state;
      IdleIsDistinct(acked);
      var unit := Keyed(mutant, body);
      UpsertedHolds(acked.mutation.value, unit);
      UpsertedNew(acked, unit);
      var replaced := Remember(unit);
      if replaced {
        AppendDuplicate(unit, acked, out);
      } else {
        AppendNew(unit, acked, out);
      }
    }

    lemma IdleIsDistinct(acked: State)
      requires Inv(codec, id, At(acked, Idle), layout) && acked.mutation.Some?
      ensures Valid(acked) && DistinctIds(acked.mutation.value.results)
    {
    }

    lemma SavedResult(acked: State, unit: Keyed<ResultBody>)
      requires Lawful(codec) && store.codec == codec && ValidSha256(id) && Valid(acked) && acked.mutation.Some?
      requires state == ApplyUnit(acked, ResultUnit(unit)) && unit.id !in Ids(acked.mutation.value.results)
      ensures Valid(state) <==> ResultOk(unit)
      ensures Settled(state) && Valid(state) ==> Consistent()
    {
      var results := acked.mutation.value.results;
      SettledIsIdle(state);
      DistinctIdsAppend(results, unit);
      assert unit in results + [unit];
    }
  }

  /** The same header and the same units, each as often, by identifier in the first. */
  ghost predicate SameBaseline(a: Baseline, b: Baseline)
  {
    && a.(targets := [], suites := []) == b.(targets := [], suites := [])
    && multiset(a.targets) == multiset(b.targets) && multiset(a.suites) == multiset(b.suites)
    && (forall i, j :: 0 <= i < j < |a.targets| ==> TextLe(a.targets[i].id, a.targets[j].id))
    && (forall i, j :: 0 <= i < j < |a.suites| ==> TextLe(a.suites[i].id, a.suites[j].id))
  }

  lemma SavedIsSame(b: Baseline)
    ensures SameBaseline(CanonicalBaseline(b), b)
  {
    SortPermutes(b.targets, ById);
    SortPermutes(b.suites, ById);
    ByIdIsTotalPreorder<TargetBody>();
    ByIdIsTotalPreorder<SuiteBody>();
    SortSorted(b.targets, ById);
    SortSorted(b.suites, ById);
  }

  /** The index of the first unit with the identifier, or the length when there is none. */
  function Position<V>(s: seq<Keyed<V>>, id: string): (i: nat)
    ensures i <= |s| && (i < |s| ==> s[i].id == id)
  {
    if s == [] || s[0].id == id then 0 else 1 + Position(s[1..], id)
  }

  function Upserted(m: Mutation, unit: Keyed<ResultBody>): Mutation
  {
    var i := Position(m.results, unit.id);
    m.(results := if i < |m.results| then m.results[i := unit] else m.results + [unit])
  }

  /** The new result is held in place of any earlier one for its mutant, and no other changes. */
  lemma UpsertedHolds(m: Mutation, unit: Keyed<ResultBody>)
    requires DistinctIds(m.results)
    ensures
      var now := Upserted(m, unit).results;
      && (forall u :: u in now <==> u == unit || (u in m.results && u.id != unit.id))
      && Ids(now) == Ids(m.results) + {unit.id}
  {
    var i, now := Position(m.results, unit.id), Upserted(m, unit).results;
    if i < |m.results| {
      forall u | u in now ensures u == unit || (u in m.results && u.id != unit.id) {
        var j :| 0 <= j < |now| && now[j] == u;
        assert j != i ==> m.results[j].id != m.results[i].id;
      }
      forall u | u == unit || (u in m.results && u.id != unit.id) ensures u in now {
        if u != unit {
          var j :| 0 <= j < |m.results| && m.results[j] == u;
          assert now[j] == u;
        } else {
          assert now[i] == u;
        }
      }
    } else {
      PositionMisses(m.results, unit.id);
      assert now == m.results + [unit];
    }
    forall id ensures id in Ids(now) <==> id in Ids(m.results) || id == unit.id {
      if j :| 0 <= j < |m.results| && m.results[j].id == id {
        assert now[j].id == id;
      }
      if id == unit.id {
        assert unit in now;
        var j :| 0 <= j < |now| && now[j] == unit;
      }
      if j :| 0 <= j < |now| && now[j].id == id {
        assert j < |m.results| && j != i ==> m.results[j].id == id;
      }
    }
  }

  lemma UpsertedNew(acked: State, unit: Keyed<ResultBody>)
    requires acked.mutation.Some?
    ensures unit.id !in Ids(acked.mutation.value.results) ==>
      acked.(mutation := Some(Upserted(acked.mutation.value, unit))) == ApplyUnit(acked, ResultUnit(unit))
  {
    var results := acked.mutation.value.results;
    if unit.id !in Ids(results) {
      forall j | 0 <= j < |results| ensures results[j].id in Ids(results) {
      }
      PositionAbsent(results, unit.id);
    }
  }

  lemma {:induction false} PositionMisses<V(!new)>(s: seq<Keyed<V>>, id: string)
    requires Position(s, id) == |s|
    ensures forall j :: 0 <= j < |s| ==> s[j].id != id
  {
    if s != [] {
      PositionMisses(s[1..], id);
      assert forall j :: 0 < j < |s| ==> s[j] == s[1..][j - 1];
    }
  }

  lemma {:induction false} PositionFirst<V(!new)>(s: seq<Keyed<V>>, id: string, i: nat)
    requires i < |s| && s[i].id == id && forall j :: 0 <= j < i ==> s[j].id != id
    ensures Position(s, id) == i
  {
    if i > 0 {
      assert s[0].id != id;
      PositionFirst(s[1..], id, i - 1);
    }
  }

  lemma {:induction false} PositionAbsent<V(!new)>(s: seq<Keyed<V>>, id: string)
    requires forall j :: 0 <= j < |s| ==> s[j].id != id
    ensures Position(s, id) == |s| && id !in Ids(s)
  {
    if s != [] {
      PositionAbsent(s[1..], id);
    }
  }

  lemma TornStands(k: Codec, id: string, w: Layout, tail: string, x: State)
    requires Tidy(id, w) && Stands(w, x)
    ensures Tidy(id, w.(tail := tail)) && Stands(w.(tail := tail), x)
  {
  }

  /** A deletion, as far as it gets, leaves the recovery as it was or nothing to recover. */
  lemma DeletionRecovers(k: Codec, id: string, disk: Disk)
    ensures disk.base.None? ==> Recover(k, id, disk) == Absent
  {
  }

  /** A settled disk with one more line for an identifier it already holds is refused. */
  lemma RejectsDuplicate(k: Codec, id: string, c: Config, w: Layout, u: Unit)
    requires Lawful(k) && Inv(k, id, c, w) && c.phase.Idle? && !Accepts(c.acked.value, u)
    ensures Recover(k, id, Extended(c.disk, AppendData(k, id, c.digest, u))) == Corrupt
  {
    var b := w.base.value;
    var line := Line(k, id, c.digest, u);
    var lines := Lines(k, id, w);
    var data := JournalText(lines + [line], "");
    JournalTextAppend(lines, line);
    assert JournalText(lines, "") + line + "\n" == JournalText(lines, "") + (line + "\n");
    assert Extended(c.disk, line + "\n").journal == Some(data);
    LineReads(k, id, c.digest, u);
    StaleLinesPlain(k, id, w.stale + Owned(b, w.current));
    JournalTextReads(lines + [line], "");
    assert w.stale + Owned(b, w.current) == Owned(b, w.current);
    SameUnitsApply(ApplyAll(b, w.current), c.acked.value, u);
    ReplayCurrent(k, id, b, b, w.current, [line], false);
    assert k.decodeState(c.disk.base.value) == Some(b);
  }
}
