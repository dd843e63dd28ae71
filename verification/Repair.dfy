/** The transactional repair batch (internal/repair/repair.go): inspect every target, write them one
    by one after a second look, and put back what was written when one of them fails. */
module Repair {
  import opened Wrappers

  datatype File = File(content: string, mode: int)

  datatype Application = Application(path: string, content: string, preimage: string)

  datatype Status = Applied | Artifact | Candidate

  datatype Result = Result(status: Status, path: string)

  datatype Report = Report(results: seq<Result>, failed: bool, rollbackFailed: bool)

  /** What an inspection remembers of a target. */
  datatype State = State(path: string, content: string, preimage: string, original: Option<File>, mode: int)

  /** What others do to the files between two steps of the batch; None deletes. */
  type Edit = map<string, Option<File>>

  /** The edits made before each inspection, each second look and each step of the rollback, and
      which operations fail. */
  datatype Surroundings = Surroundings(
    beforeInspect: nat -> Edit, beforeCheck: nat -> Edit, beforeRestore: nat -> Edit,
    inspectFails: set<nat>, checkFails: set<nat>, writeFails: set<nat>, artifactFails: set<nat>,
    readBackFails: set<nat>, restoreFails: set<nat>)

  /** Path rules and the content digest; an empty preimage stands for an absent file. */
  datatype Rules = Rules(normalize: string -> Option<string>, allowed: string -> bool, upper: string -> string,
                         digest: string -> string)
  {
    ghost predicate CollisionFree()
    {
      (forall a, b :: digest(a) == digest(b) ==> a == b) && forall a :: digest(a) != ""
    }
  }

  const READABLE_FILE: int := 0x1a4

  function Look(files: map<string, File>, path: string): Option<File>
  {
    if path in files then Some(files[path]) else None
  }

  function Text(f: Option<File>): Option<string>
  {
    if f.Some? then Some(f.value.content) else None
  }

  predicate Matches(rules: Rules, preimage: string, f: Option<File>)
  {
    if f.None? then preimage == "" else rules.digest(f.value.content) == preimage
  }

  lemma PreimageDetermines(rules: Rules, preimage: string, f: Option<File>, g: Option<File>)
    requires rules.CollisionFree() && Matches(rules, preimage, f) && Matches(rules, preimage, g)
    ensures Text(f) == Text(g)
  {
  }

  function Changed(files: map<string, File>, e: Edit): map<string, File>
  {
    map p | p in files.Keys + e.Keys && (p in e ==> e[p].Some?) :: if p in e then e[p].value else files[p]
  }

  /** The files after these edits and nothing else. */
  function ChangedAll(files: map<string, File>, edits: seq<Edit>): map<string, File>
  {
    if edits == [] then files
    else Changed(ChangedAll(files, edits[..|edits| - 1]), edits[|edits| - 1])
  }

  /** The two trees hold the same text at the path. */
  ghost predicate SameAt(a: map<string, File>, b: map<string, File>, path: string)
  {
    Text(Look(a, path)) == Text(Look(b, path))
  }

  ghost predicate SameText(a: map<string, File>, b: map<string, File>)
  {
    forall p :: SameAt(a, b, p)
  }

  ghost predicate DistinctTargets(states: seq<State>)
  {
    forall i, j :: 0 <= i < j < |states| ==> states[i].path != states[j].path
  }

  /** The edit gives the target the very text the batch wants to give it. */
  ghost predicate Gives(e: Edit, state: State)
  {
    state.path in e && e[state.path].Some? && e[state.path].value.content == state.content
  }

  /** Some edit made after the inspections does. */
  ghost predicate Imitated(s: Surroundings, state: State)
  {
    (exists n: nat :: Gives(s.beforeCheck(n), state)) || (exists n: nat :: Gives(s.beforeRestore(n), state))
  }

  /** A written target not edited since: it holds the candidate's text where the edits alone would
      leave the original. */
  ghost predicate Ours(files: map<string, File>, world: map<string, File>, state: State)
  {
    Text(Look(files, state.path)) == Some(state.content) && Text(Look(world, state.path)) == Text(state.original)
  }

  /** The edits alone leave the candidate's text, and the batch has put the original in its place. */
  ghost predicate Undone(files: map<string, File>, world: map<string, File>, state: State)
  {
    Text(Look(files, state.path)) == Text(state.original) && Text(Look(world, state.path)) == Some(state.content)
  }

  ghost predicate Untouched(edits: nat -> Edit, path: string, from: nat, to: nat)
  {
    forall k: nat :: from <= k < to ==> path !in edits(k)
  }

  /** A target written and not yet put back. */
  ghost predicate Standing(files: map<string, File>, world: map<string, File>, state: State)
  {
    Ours(files, world, state) || SameAt(files, world, state.path)
  }

  /** Target `i` after its step of the rollback, which has come down to step `from`: as the edits left
      it, or still ours after a complaint, or undone.  Without a complaint it is undone whenever the
      edits leave the candidate's text and none has touched it since its step. */
  ghost predicate Settled(files: map<string, File>, world: map<string, File>, state: State, i: nat, from: nat,
                          complained: bool, s: Surroundings)
  {
    && (SameAt(files, world, state.path) || (complained && Ours(files, world, state)) ||
        (Undone(files, world, state) && Untouched(s.beforeRestore, state.path, from, i)))
    && (!complained && Untouched(s.beforeRestore, state.path, from, i) && Text(Look(world, state.path)) == Some(state.content) ==>
         Undone(files, world, state))
  }

  /** The edits alone leave the candidate's text only where it was the original or an edit wrote it. */
  ghost predicate Explained(world: map<string, File>, state: State, s: Surroundings)
  {
    Text(Look(world, state.path)) == Some(state.content) ==> Text(state.original) == Some(state.content) || Imitated(s, state)
  }

  ghost predicate IsTarget(states: seq<State>, applied: nat, path: string)
    requires applied <= |states|
  {
    exists i :: 0 <= i < applied && states[i].path == path
  }

  /** Of the first `applied` targets, written, those from `index` on have had their step of the
      rollback; everything else is as the edits made it. */
  ghost predicate Restoring(files: map<string, File>, world: map<string, File>, states: seq<State>, applied: nat,
                            index: nat, complained: bool, s: Surroundings)
    requires index <= applied <= |states|
  {
    && (forall i :: 0 <= i < index ==> Standing(files, world, states[i]))
    && (forall i :: index <= i < applied ==> Settled(files, world, states[i], i, index, complained, s))
    && (forall i :: 0 <= i < applied ==> Explained(world, states[i], s))
    && (forall p :: !IsTarget(states, applied, p) ==> SameAt(files, world, p))
  }

  lemma EditKeepsSame(files: map<string, File>, world: map<string, File>, e: Edit, p: string)
    ensures SameAt(files, world, p) ==> SameAt(Changed(files, e), Changed(world, e), p)
    ensures p in e ==> SameAt(Changed(files, e), Changed(world, e), p)
    ensures p !in e ==> Look(Changed(files, e), p) == Look(files, p) && Look(Changed(world, e), p) == Look(world, p)
  {
  }

  lemma EditKeepsStanding(files: map<string, File>, world: map<string, File>, e: Edit, state: State)
    requires Standing(files, world, state)
    ensures Standing(Changed(files, e), Changed(world, e), state)
  {
    EditKeepsSame(files, world, e, state.path);
  }

  lemma EditKeepsExplained(world: map<string, File>, e: Edit, state: State, s: Surroundings, n: nat)
    requires Explained(world, state, s) && (e == s.beforeCheck(n) || e == s.beforeRestore(n))
    ensures Explained(Changed(world, e), state, s)
  {
    assert Gives(e, state) ==> Imitated(s, state);
    EditKeepsSame(world, world, e, state.path);
  }

  lemma EditKeepsSettled(files: map<string, File>, world: map<string, File>, state: State, i: nat, index: nat,
                         complained: bool, s: Surroundings)
    requires index < i && Settled(files, world, state, i, index + 1, complained, s)
    ensures Settled(Changed(files, s.beforeRestore(index)), Changed(world, s.beforeRestore(index)), state, i, index, complained, s)
  {
    var e := s.beforeRestore(index);
    EditKeepsSame(files, world, e, state.path);
    if state.path !in e {
      assert Untouched(s.beforeRestore, state.path, index, i) <==> Untouched(s.beforeRestore, state.path, index + 1, i);
    }
  }

  lemma EditKeepsWritten(files: map<string, File>, world: map<string, File>, states: seq<State>, n: nat,
                         s: Surroundings, step: nat)
    requires n <= |states| && Restoring(files, world, states, n, n, false, s)
    ensures Restoring(Changed(files, s.beforeCheck(step)), Changed(world, s.beforeCheck(step)), states, n, n, false, s)
  {
    hide Standing, Explained, IsTarget, SameAt, Changed;
    var e := s.beforeCheck(step);
    forall i | 0 <= i < n
      ensures Standing(Changed(files, e), Changed(world, e), states[i]) && Explained(Changed(world, e), states[i], s)
    {
      EditKeepsStanding(files, world, e, states[i]);
      EditKeepsExplained(world, e, states[i], s, step);
    }
    forall p | !IsTarget(states, n, p) ensures SameAt(Changed(files, e), Changed(world, e), p) {
      EditKeepsSame(files, world, e, p);
    }
  }

  /** Writing one more target, whose text is still the one inspected. */
  lemma WriteKeepsRestoring(rules: Rules, files: map<string, File>, world: map<string, File>, states: seq<State>, n: nat,
                            s: Surroundings)
    requires n < |states| && DistinctTargets(states) && rules.CollisionFree()
    requires Restoring(files, world, states, n, n, false, s)
    requires Matches(rules, states[n].preimage, Look(files, states[n].path))
    requires Matches(rules, states[n].preimage, states[n].original)
    ensures Restoring(files[states[n].path := File(states[n].content, states[n].mode)], world, states, n + 1, n + 1, false, s)
  {
    var path := states[n].path;
    var after := files[path := File(states[n].content, states[n].mode)];
    PreimageDetermines(rules, states[n].preimage, Look(files, path), states[n].original);
    assert !IsTarget(states, n, path);
    assert SameAt(files, world, path);
    assert Ours(after, world, states[n]);
    forall i | 0 <= i < n ensures Standing(after, world, states[i]) {
      assert states[i].path != path;
    }
    forall p | !IsTarget(states, n + 1, p) ensures SameAt(after, world, p) {
      assert states[n].path == path;
      assert p != path;
      assert !IsTarget(states, n, p);
    }
  }

  /** Put one target back: refuse what does not hold the candidate's text. */
  function RestoreStep(files: map<string, File>, state: State, readFails: bool, writeFails: bool): (map<string, File>, bool)
  {
    var current := Look(files, state.path);
    if readFails then (files, true)
    else if current.None? then (files, state.original.Some?)
    else if current.value.content != state.content then (files, true)
    else if writeFails then (files, true)
    else if state.original.Some? then (files[state.path := File(state.original.value.content, state.mode)], false)
    else (files - {state.path}, false)
  }

  /** The step of one target, whatever the edits made of it. */
  lemma RestoreSettles(files: map<string, File>, world: map<string, File>, state: State, i: nat, complained: bool,
                       s: Surroundings, readFails: bool, writeFails: bool)
    requires Standing(files, world, state)
    ensures
      var (after, complaint) := RestoreStep(files, state, readFails, writeFails);
      && Settled(after, world, state, i, i, complained || complaint, s)
      && forall p :: p != state.path ==> Look(after, p) == Look(files, p)
  {
  }

  lemma SettledStays(files: map<string, File>, after: map<string, File>, world: map<string, File>, state: State, i: nat,
                     from: nat, before: bool, complained: bool, s: Surroundings)
    requires Look(after, state.path) == Look(files, state.path) && (before ==> complained)
    requires Settled(files, world, state, i, from, before, s)
    ensures Settled(after, world, state, i, from, complained, s)
  {
  }

  /** One step of the rollback, edits first, in each of its branches. */
  lemma RollbackKeepsRestoring(files: map<string, File>, world: map<string, File>, states: seq<State>, applied: nat,
                               index: nat, complained: bool, s: Surroundings, readFails: bool, writeFails: bool)
    requires index < applied <= |states| && DistinctTargets(states)
    requires Restoring(files, world, states, applied, index + 1, complained, s)
    ensures
      var w := Changed(world, s.beforeRestore(index));
      var (after, complaint) := RestoreStep(Changed(files, s.beforeRestore(index)), states[index], readFails, writeFails);
      Restoring(after, w, states, applied, index, complained || complaint, s)
  {
    hide Standing, Settled, Explained, IsTarget, SameAt, Changed, Look, RestoreStep;
    var e := s.beforeRestore(index);
    var f, w := Changed(files, e), Changed(world, e);
    var (after, complaint) := RestoreStep(f, states[index], readFails, writeFails);
    EditKeepsStanding(files, world, e, states[index]);
    RestoreSettles(f, w, states[index], index, complained, s, readFails, writeFails);
    forall i | 0 <= i < applied ensures Explained(w, states[i], s) {
      EditKeepsExplained(world, e, states[i], s, index);
    }
    forall i | 0 <= i < index ensures Standing(after, w, states[i]) {
      EditKeepsStanding(files, world, e, states[i]);
      StandingStays(f, after, w, states[i]);
    }
    forall i | index <= i < applied ensures Settled(after, w, states[i], i, index, complained || complaint, s) {
      if i > index {
        assert states[index].path != states[i].path;
        EditKeepsSettled(files, world, states[i], i, index, complained, s);
        SettledStays(f, after, w, states[i], i, index, complained, complained || complaint, s);
      }
    }
    forall p | !IsTarget(states, applied, p) ensures SameAt(after, w, p) {
      EditKeepsSame(files, world, e, p);
      TargetIsTarget(states, applied, index);
      SameStays(f, after, w, p);
    }
  }

  lemma StandingStays(files: map<string, File>, after: map<string, File>, world: map<string, File>, state: State)
    requires Look(after, state.path) == Look(files, state.path) && Standing(files, world, state)
    ensures Standing(after, world, state)
  {
  }

  lemma SameStays(files: map<string, File>, after: map<string, File>, world: map<string, File>, p: string)
    requires Look(after, p) == Look(files, p) && SameAt(files, world, p)
    ensures SameAt(after, world, p)
  {
  }

  lemma TargetIsTarget(states: seq<State>, applied: nat, i: nat)
    requires i < applied <= |states|
    ensures IsTarget(states, applied, states[i].path)
  {
  }

  /** What the files read at a path is the edits' text, or the candidate's that could not be put back,
      or the original where the edits gave the candidate's. */
  ghost predicate LosesNoOther(files: map<string, File>, world: map<string, File>, states: seq<State>)
  {
    forall p :: SameAt(files, world, p) ||
                exists i :: 0 <= i < |states| && states[i].path == p && (Ours(files, world, states[i]) || Undone(files, world, states[i]))
  }

  /** An edit of a written target is lost: it gave the candidate's own text before the target's step of
      the rollback, which is not the original, and no edit touched the path after that step. */
  ghost predicate Lost(world: map<string, File>, states: seq<State>, written: nat, s: Surroundings, p: string)
    requires written <= |states|
  {
    exists i :: 0 <= i < written && states[i].path == p && LostAt(world, states[i], i, s)
  }

  ghost predicate LostAt(world: map<string, File>, state: State, i: nat, s: Surroundings)
  {
    && Text(Look(world, state.path)) == Some(state.content) && Text(state.original) != Some(state.content)
    && Untouched(s.beforeRestore, state.path, 0, i)
  }

  lemma RestoringLosesNoOther(files: map<string, File>, world: map<string, File>, states: seq<State>, applied: nat,
                              index: nat, complained: bool, s: Surroundings)
    requires index <= applied <= |states| && Restoring(files, world, states, applied, index, complained, s)
    ensures LosesNoOther(files, world, states)
  {
    hide Ours, Undone, SameAt, Explained;
    forall p | !SameAt(files, world, p)
      ensures exists i :: 0 <= i < |states| && states[i].path == p && (Ours(files, world, states[i]) || Undone(files, world, states[i]))
    {
      var i :| 0 <= i < applied && states[i].path == p;
      assert i < index ==> Standing(files, world, states[i]);
      assert i >= index ==> Settled(files, world, states[i], i, index, complained, s);
    }
  }

  /** A rollback without a complaint loses exactly the edits that gave a candidate's own text, and
      none when nobody wrote one. */
  lemma RestoredExactly(files: map<string, File>, world: map<string, File>, states: seq<State>, written: nat, s: Surroundings)
    requires written <= |states| && Restoring(files, world, states, written, 0, false, s)
    ensures forall p :: SameAt(files, world, p) <==> !Lost(world, states, written, s, p)
    ensures forall i :: 0 <= i < written && LostAt(world, states[i], i, s) ==>
      Imitated(s, states[i]) && Text(Look(files, states[i].path)) == Text(states[i].original)
  {
    hide Imitated, Untouched;
    forall i | 0 <= i < written
      ensures Settled(files, world, states[i], i, 0, false, s) && Explained(world, states[i], s)
      ensures LostAt(world, states[i], i, s) ==> Undone(files, world, states[i]) && !SameAt(files, world, states[i].path)
      ensures !SameAt(files, world, states[i].path) ==> LostAt(world, states[i], i, s)
    {
    }
    forall p ensures SameAt(files, world, p) <==> !Lost(world, states, written, s, p) {
      if !SameAt(files, world, p) {
        assert IsTarget(states, written, p);
        var i :| 0 <= i < written && states[i].path == p;
        assert LostAt(world, states[i], i, s);
      }
    }
  }

  /** One user, one target: the candidate's own text written over it is taken for the batch's. */
  lemma OwnTextIsUndone()
    ensures exists files: map<string, File>, world: map<string, File>, state: State, e: Edit ::
      && Ours(files, world, state) && Gives(e, state)
      && var (after, complaint) := RestoreStep(Changed(files, e), state, false, false);
         !complaint && !SameAt(after, Changed(world, e), state.path)
  {
    var state := State("a_test.go", "new", "d", Some(File("old", 0)), 0);
    var files, world := map["a_test.go" := File("new", 0)], map["a_test.go" := File("old", 0)];
    var e: Edit := map["a_test.go" := Some(File("new", 0))];
    var (after, complaint) := RestoreStep(Changed(files, e), state, false, false);
    assert Gives(e, state) && !complaint && !SameAt(after, Changed(world, e), state.path);
  }

  /** No edit after the inspections gives a target its candidate's text. */
  ghost predicate ForeignEdits(states: seq<State>, s: Surroundings)
  {
    forall i :: 0 <= i < |states| ==> !Imitated(s, states[i])
  }

  // ---- when nobody edits anything, whatever fails

  ghost predicate Calm(s: Surroundings)
  {
    forall n: nat :: s.beforeInspect(n) == map[] && s.beforeCheck(n) == map[] && s.beforeRestore(n) == map[]
  }

  /** The states tell the files as they are, with their modes. */
  ghost predicate Honest(files: map<string, File>, states: seq<State>)
  {
    forall i :: 0 <= i < |states| ==>
      && states[i].original == Look(files, states[i].path)
      && states[i].mode == if states[i].original.Some? then states[i].original.value.mode else 0x1a4
  }

  /** The files with the first `n` targets written. */
  ghost function Overwritten(files: map<string, File>, states: seq<State>, n: nat): map<string, File>
    requires n <= |states|
  {
    if n == 0 then files
    else Overwritten(files, states, n - 1)[states[n - 1].path := File(states[n - 1].content, states[n - 1].mode)]
  }

  lemma {:induction false} OverwrittenElsewhere(files: map<string, File>, states: seq<State>, n: nat, p: string)
    requires n <= |states| && forall i :: 0 <= i < n ==> states[i].path != p
    ensures Look(Overwritten(files, states, n), p) == Look(files, p)
  {
    if n > 0 {
      OverwrittenElsewhere(files, states, n - 1, p);
    }
  }

  /** One step of the rollback undoes one step of the writing, and complains only when it cannot look or
      cannot write. */
  lemma RestoreUndoes(files: map<string, File>, states: seq<State>, n: nat, readFails: bool, writeFails: bool)
    requires n < |states| && DistinctTargets(states) && Honest(files, states)
    ensures
      var (after, complaint) := RestoreStep(Overwritten(files, states, n + 1), states[n], readFails, writeFails);
      (complaint <==> readFails || writeFails) && (!complaint ==> after == Overwritten(files, states, n))
  {
    OverwrittenElsewhere(files, states, n, states[n].path);
  }

  lemma CalmEdit(files: map<string, File>, e: Edit)
    requires e == map[]
    ensures Changed(files, e) == files
  {
  }

  /** Nobody edits anything and nothing fails. */
  ghost predicate Quiet(s: Surroundings)
  {
    && (forall n: nat :: s.beforeInspect(n) == map[])
    && (forall n: nat :: s.beforeCheck(n) == map[])
    && s.inspectFails == s.checkFails == s.writeFails == {}
  }

  /** The application may be applied to the files as they are. */
  ghost predicate Fresh(rules: Rules, files: map<string, File>, a: Application)
  {
    var path := rules.normalize(a.path);
    path.Some? && rules.allowed(path.value) && Matches(rules, a.preimage, Look(files, path.value))
  }

  ghost predicate AllFresh(rules: Rules, files: map<string, File>, apps: seq<Application>)
  {
    && (forall i :: 0 <= i < |apps| ==> Fresh(rules, files, apps[i]))
    && (forall i, j :: 0 <= i < j < |apps| ==>
         rules.upper(rules.normalize(apps[i].path).value) != rules.upper(rules.normalize(apps[j].path).value))
  }

  class Tree {
    const rules: Rules
    var files: map<string, File>
    /** The candidates whose patch was stored for the user instead. */
    var artifacts: seq<Application>
    /** The edits made by others since the batch began, and what they alone would have made of the files. */
    ghost var made: seq<Edit>
    ghost var world: map<string, File>
    ghost var start: map<string, File>

    ghost predicate Tracked()
      reads this
    {
      world == ChangedAll(start, made)
    }

    constructor (rules: Rules, files: map<string, File>)
      ensures this.rules == rules && this.files == files && artifacts == [] && Tracked()
    {
      this.rules, this.files, artifacts := rules, files, [];
      start, made, world := files, [], files;
    }

    method Suffer(e: Edit)
      requires Tracked()
      modifies this`files, this`made, this`world
      ensures files == Changed(old(files), e) && world == Changed(old(world), e)
      ensures Tracked()
    {
      files := Changed(files, e);
      world := Changed(world, e);
      made := made + [e];
      assert made[..|made| - 1] == old(made);
    }

    /** Rename a finished temporary file into place, or leave the old file as it is. */
    method AtomicWrite(path: string, f: File, fails: bool) returns (ok: bool)
      modifies this`files
      ensures ok <==> !fails
      ensures files == if ok then old(files)[path := f] else old(files)
    {
      if fails {
        return false;
      }
      files := files[path := f];
      ok := true;
    }

    method StoreArtifact(a: Application, fails: bool) returns (ok: bool)
      modifies this`artifacts
      ensures ok <==> !fails
      ensures artifacts == if ok then old(artifacts) + [a] else old(artifacts)
    {
      if fails {
        return false;
      }
      artifacts := artifacts + [a];
      ok := true;
    }

    function Inspect(path: string, a: Application): (State, bool)
      reads this
    {
      var found := Look(files, path);
      var mode := if found.Some? then found.value.mode else READABLE_FILE;
      (State(path, a.content, a.preimage, found, mode), Matches(rules, a.preimage, found))
    }

    /** Inspect one target; a file that is not the candidate's preimage gets its patch stored. */
    method InspectOne(a: Application, taken: set<string>, e: Edit, inspectFails: bool, artifactFails: bool)
      returns (ok: bool, state: State, matched: bool)
      requires Tracked() && SameText(files, world)
      modifies this`files, this`made, this`world, this`artifacts
      ensures Tracked() && SameText(files, world)
      ensures ok ==> Fits(rules, a, state) && rules.upper(state.path) !in taken
      ensures ok ==> matched == Matches(rules, state.preimage, state.original)
      ensures ok ==> Honest(files, [state])
      ensures old(artifacts) <= artifacts && (ok && !matched ==> a.(path := state.path) in artifacts)
      ensures e == map[] ==> files == old(files)
      ensures e == map[] && !inspectFails && Fresh(rules, old(files), a) ==>
        rules.upper(rules.normalize(a.path).value) in taken || (ok && matched)
    {
      ok, matched := false, false;
      state := State("", "", "", None, 0);
      var normalized := rules.normalize(a.path);
      if normalized.None? || !rules.allowed(normalized.value) || rules.upper(normalized.value) in taken {
        return;
      }
      var path := normalized.value;
      forall p ensures SameAt(Changed(files, e), Changed(world, e), p) {
        EditKeepsSame(files, world, e, p);
      }
      assert e == map[] ==> Changed(files, e) == files;
      Suffer(e);
      if inspectFails {
        return;
      }
      state, matched := Inspect(path, a).0, Inspect(path, a).1;
      ok := true;
      if !matched {
        ok := StoreArtifact(a.(path := path), artifactFails);
      }
    }

    /** Inspect every target before any of them is written. */
    method InspectAll(apps: seq<Application>, s: Surroundings)
      returns (ok: bool, states: seq<State>, results: seq<Result>, mismatch: bool)
      requires Tracked() && SameText(files, world)
      modifies this`files, this`made, this`world, this`artifacts
      ensures Tracked() && SameText(files, world)
      ensures ok ==> Inspected(rules, apps, states) && |results| == |apps|
      ensures ok ==> (mismatch <==> !AllMatch(rules, states))
      ensures ok ==> forall i :: 0 <= i < |apps| ==> Reported(rules, results[i], apps[i], states[i], artifacts)
      ensures Quiet(s) ==> files == old(files)
      ensures Calm(s) ==> files == old(files) && (ok ==> Honest(files, states))
      ensures Quiet(s) && AllFresh(rules, old(files), apps) ==> ok && !mismatch
    {
      hide Honest, Calm, Quiet, Reported, SameText, Matches, Look, AllFresh, Fresh, ChangedAll, Changed, AllMatch;
      states, results, mismatch := [], [], false;
      AllMatchEmpty(rules);
      HonestEmpty(files);
      var taken: set<string> := {};
      for i := 0 to |apps|
        invariant Tracked() && SameText(files, world)
        invariant |states| == |results| == i
        invariant forall j :: 0 <= j < i ==> Fits(rules, apps[j], states[j])
        invariant forall j :: 0 <= j < i ==> Reported(rules, results[j], apps[j], states[j], artifacts)
        invariant DistinctTargets(states) && (mismatch <==> !AllMatch(rules, states))
        invariant taken == set j | 0 <= j < i :: rules.upper(states[j].path)
        invariant Quiet(s) ==> files == old(files) && (AllFresh(rules, files, apps) ==> !mismatch)
        invariant Calm(s) ==> files == old(files) && Honest(files, states)
      {
        if Quiet(s) {
          QuietAt(s, i);
          if AllFresh(rules, files, apps) {
            FreshNext(rules, files, apps, states, taken);
          }
        }
        if Calm(s) {
          CalmAt(s, i);
        }
        ghost var before := artifacts;
        var done, state, matched :=
          InspectOne(apps[i], taken, s.beforeInspect(i), i in s.inspectFails, i in s.artifactFails);
        if !done {
          return false, [], [], false;
        }
        taken := taken + {rules.upper(state.path)};
        forall j | 0 <= j < i ensures Reported(rules, results[j], apps[j], states[j], artifacts) {
          ReportedStays(rules, results[j], apps[j], states[j], before, artifacts);
        }
        NowReported(rules, apps[i], state, matched, artifacts);
        AllMatchAppend(rules, states, state);
        HonestAppend(files, states, state);
        states := states + [state];
        results := results + [Result(if matched then Candidate else Artifact, state.path)];
        mismatch := mismatch || !matched;
      }
      ok := true;
    }

    method Restore(state: State, readFails: bool, writeFails: bool) returns (complaint: bool)
      modifies this`files
      ensures (files, complaint) == RestoreStep(old(files), state, readFails, writeFails)
    {
      if readFails {
        return true;
      }
      if state.path !in files {
        return state.original.Some?;
      }
      if files[state.path].content != state.content {
        return true;
      }
      if state.original.Some? {
        var ok := AtomicWrite(state.path, File(state.original.value.content, state.mode), writeFails);
        return !ok;
      }
      if writeFails {
        return true;
      }
      files := files - {state.path};
      complaint := false;
    }

    /** Put back the written targets, the last one first. */
    method Rollback(states: seq<State>, applied: nat, s: Surroundings, ghost sound: bool, ghost before: map<string, File>)
      returns (complained: bool)
      requires applied <= |states| && DistinctTargets(states) && Tracked()
      requires sound ==> Restoring(files, world, states, applied, applied, false, s)
      requires Calm(s) ==> Honest(before, states) && files == Overwritten(before, states, applied)
      modifies this`files, this`made, this`world
      ensures Tracked() && (sound ==> Restoring(files, world, states, applied, 0, complained, s))
      ensures Calm(s) && !complained ==> files == before
      ensures Calm(s) && s.readBackFails == s.restoreFails == {} ==> !complained
    {
      hide Restoring, RestoreStep, Changed, Honest;
      complained := false;
      var index: nat := applied;
      while index > 0
        invariant index <= applied && Tracked()
        invariant sound ==> Restoring(files, world, states, applied, index, complained, s)
        invariant Calm(s) && !complained ==> files == Overwritten(before, states, index)
        invariant Calm(s) && s.readBackFails == s.restoreFails == {} ==> !complained
      {
        index := index - 1;
        var readFails, writeFails := index in s.readBackFails, index in s.restoreFails;
        if sound {
          RollbackKeepsRestoring(files, world, states, applied, index, complained, s, readFails, writeFails);
        }
        if Calm(s) {
          CalmEdit(files, s.beforeRestore(index));
          RestoreUndoes(before, states, index, readFails, writeFails);
        }
        Suffer(s.beforeRestore(index));
        var complaint := Restore(states[index], readFails, writeFails);
        complained := complained || complaint;
      }
    }

    /** Second look at one target, then write it; a failure rolls back those before it. */
    method WriteOne(apps: seq<Application>, states: seq<State>, index: nat, s: Surroundings, ghost sound: bool,
                    ghost before: map<string, File>)
      returns (status: Status, failed: bool, complained: bool)
      requires index < |states| == |apps| && DistinctTargets(states) && Tracked()
      requires sound ==> rules.CollisionFree() && AllMatch(rules, states)
      requires sound ==> Restoring(files, world, states, index, index, false, s)
      requires Calm(s) ==> Honest(before, states) && files == Overwritten(before, states, index)
      modifies this`files, this`made, this`world, this`artifacts
      ensures Tracked() && (complained ==> failed)
      ensures status == Applied ==> !failed && (sound ==> Restoring(files, world, states, index + 1, index + 1, false, s))
      ensures status != Applied ==> (sound ==> Restoring(files, world, states, index, 0, complained, s))
      ensures Calm(s) && status == Applied ==> files == Overwritten(before, states, index + 1)
      ensures Calm(s) && status != Applied && !complained ==> files == before
      ensures Calm(s) && s.readBackFails == s.restoreFails == {} ==> !complained
      ensures status != Applied && !failed ==> status == Artifact && apps[index].(path := states[index].path) in artifacts
      ensures Quiet(s) && Matches(rules, states[index].preimage, Look(old(files), states[index].path)) ==>
        status == Applied && files == old(files)[states[index].path := File(states[index].content, states[index].mode)]
    {
      hide Restoring, Matches, Changed, Look, ChangedAll, AllMatch, Quiet, Honest;
      if Calm(s) {
        CalmEdit(files, s.beforeCheck(index));
      }
      var state := states[index];
      if sound {
        EditKeepsWritten(files, world, states, index, s, index);
      }
      if Quiet(s) {
        QuietCheck(s, index, files);
      }
      Suffer(s.beforeCheck(index));
      complained := false;
      if index in s.checkFails {
        complained := Rollback(states, index, s, sound, before);
        return Candidate, true, complained;
      }
      if !Matches(rules, state.preimage, Look(files, state.path)) {
        complained := Rollback(states, index, s, sound, before);
        var stored := StoreArtifact(apps[index].(path := state.path), index in s.artifactFails);
        return Artifact, complained || !stored, complained;
      }
      if sound {
        MatchAt(rules, states, index);
        WriteKeepsRestoring(rules, files, world, states, index, s);
      }
      var ok := AtomicWrite(state.path, File(state.content, state.mode), index in s.writeFails);
      if !ok {
        complained := Rollback(states, index, s, sound, before);
        return Candidate, true, complained;
      }
      return Applied, false, false;
    }

    /** Target by target, until one fails. */
    method WriteAll(apps: seq<Application>, states: seq<State>, inspected: seq<Result>, s: Surroundings, ghost sound: bool)
      returns (report: Report, written: nat)
      requires Tracked() && DistinctTargets(states) && |inspected| == |states| == |apps|
      requires forall i :: 0 <= i < |states| ==> inspected[i] == Result(Candidate, states[i].path)
      requires sound ==> rules.CollisionFree() && AllMatch(rules, states) && SameText(files, world)
      requires Calm(s) ==> Honest(files, states)
      modifies this`files, this`made, this`world, this`artifacts
      ensures Tracked() && written <= |states| == |report.results|
      ensures forall i :: 0 <= i < |states| ==> report.results[i].path == states[i].path
      ensures written == |states| ==> !report.failed && AllApplied(report)
      ensures written < |states| ==> NoneApplied(report)
      ensures written < |states| && !report.failed ==> exists i ::
        0 <= i < |states| && report.results[i].status == Artifact && apps[i].(path := states[i].path) in artifacts
      ensures report.rollbackFailed ==> report.failed && written < |states|
      ensures AllReady(rules, old(files), states) && Quiet(s) ==> written == |states|
      ensures Calm(s) && written == |states| ==> files == Overwritten(old(files), states, written)
      ensures Calm(s) && written < |states| && !report.rollbackFailed ==> files == old(files)
      ensures Calm(s) && s.readBackFails == s.restoreFails == {} ==> !report.rollbackFailed
      ensures sound && written == |states| ==> Restoring(files, world, states, written, written, false, s)
      ensures sound && written < |states| ==> Restoring(files, world, states, written, 0, report.rollbackFailed, s)
    {
      hide Restoring, Matches, Changed, Look, SameText, ChangedAll, AllMatch, Quiet, Honest, Calm;
      var results := inspected;
      if sound {
        NothingWritten(files, world, states, s);
      }
      written := 0;
      while written < |states|
        invariant Tracked() && |results| == |states| && written <= |states|
        invariant forall i :: 0 <= i < |states| ==> results[i] == Result(if i < written then Applied else Candidate, states[i].path)
        invariant sound ==> Restoring(files, world, states, written, written, false, s)
        invariant AllReady(rules, old(files), states) && Quiet(s) ==> AllReady(rules, files, states[written..])
        invariant Calm(s) ==> files == Overwritten(old(files), states, written)
      {
        ghost var before := files;
        var status, failed, complained := WriteOne(apps, states, written, s, sound, old(files));
        if status != Applied {
          results := Unapplied(results, written)[written := Result(status, states[written].path)];
          report := Report(results, failed, complained);
          return;
        }
        ReadyElsewhere(rules, before, files, states, written);
        results := results[written := Result(Applied, states[written].path)];
        written := written + 1;
      }
      report := Report(results, false, false);
    }

    /** The whole batch, with digests that do not collide.  The files read as the edits alone would
        leave them but where a target could not be put back, or where an edit gave a written target its
        candidate's own text; unless every candidate is applied or the rollback complains, the latter
        paths are exactly those of `Lost`.  When nobody edits anything, the files are then as they were, modes
        included, and the rollback complains only when it cannot look or write. */
    method ApplyCandidates(apps: seq<Application>, s: Surroundings) returns (report: Report, ghost states: seq<State>, ghost written: nat)
      modifies this
      ensures world == ChangedAll(old(files), made)
      ensures AllApplied(report) || NoneApplied(report)
      ensures report.rollbackFailed ==> report.failed && NoneApplied(report)
      ensures !report.failed && NoneApplied(report) ==> |report.results| == |apps|
      ensures !report.failed && NoneApplied(report) && apps != [] ==>
        exists i :: 0 <= i < |report.results| && report.results[i].status == Artifact
      ensures Quiet(s) && AllFresh(rules, old(files), apps) ==> AllApplied(report) && |report.results| == |apps|
      ensures Calm(s) && NoneApplied(report) && !report.rollbackFailed ==> files == old(files)
      ensures Calm(s) && AllApplied(report) ==> files == Overwritten(old(files), states, |states|)
      ensures Calm(s) && s.readBackFails == s.restoreFails == {} ==> !report.rollbackFailed
      ensures AllApplied(report) && report.results != [] ==> Inspected(rules, apps, states)
      ensures written <= |states| && (states != [] ==> Inspected(rules, apps, states))
      ensures rules.CollisionFree() ==> LosesNoOther(files, world, states)
      ensures rules.CollisionFree() && NoneApplied(report) && !report.rollbackFailed ==>
        forall p :: SameAt(files, world, p) <==> !Lost(world, states, written, s, p)
      ensures rules.CollisionFree() && NoneApplied(report) && !report.rollbackFailed ==>
        forall i :: 0 <= i < written && LostAt(world, states[i], i, s) ==> Text(Look(files, states[i].path)) == Text(states[i].original)
      ensures rules.CollisionFree() && NoneApplied(report) && !report.rollbackFailed && ForeignEdits(states, s) ==>
        SameText(files, world)
      ensures rules.CollisionFree() && AllApplied(report) ==> Restoring(files, world, states, |states|, |states|, false, s)
    {
      hide Restoring, SameAt, Ours, Undone, Matches, Changed, LostAt, Imitated, Honest, Calm;
      start, made, world := files, [], files;
      states, written := [], 0;
      report := Report([], false, false);
      ghost var sound := rules.CollisionFree();
      SameAsItself(files);
      NothingWritten(files, world, [], s);
      if apps == [] {
        return;
      }
      var ok, found, results, mismatch := InspectAll(apps, s);
      states := found;
      if !ok {
        NothingWritten(files, world, [], s);
        return Report([], true, false), [], 0;
      }
      if mismatch {
        ghost var i :| 0 <= i < |found| && !Matches(rules, found[i].preimage, found[i].original);
        assert results[i].status == Artifact;
        return Report(results, false, false), states, 0;
      }
      if Quiet(s) && AllFresh(rules, files, apps) {
        forall i | 0 <= i < |found| ensures Matches(rules, found[i].preimage, Look(files, found[i].path)) {
          assert Fits(rules, apps[i], found[i]) && Fresh(rules, files, apps[i]);
        }
      }
      var applied;
      report, applied := WriteAll(apps, found, results, s, sound);
      written := applied;
      assert AllApplied(report) ==> report.results[0].status == Applied;
      if sound {
        var index := if written < |states| then 0 else written;
        RestoringLosesNoOther(files, world, states, written, index, report.rollbackFailed, s);
        if written < |states| && !report.rollbackFailed {
          RestoredExactly(files, world, states, written, s);
        }
      }
    }
  }

  /** The state is what an inspection of the application's target found. */
  ghost predicate Fits(rules: Rules, a: Application, state: State)
  {
    && rules.normalize(a.path) == Some(state.path) && rules.allowed(state.path)
    && state.content == a.content && state.preimage == a.preimage
  }

  ghost predicate Reported(rules: Rules, r: Result, a: Application, state: State, artifacts: seq<Application>)
  {
    && r == Result(if Matches(rules, state.preimage, state.original) then Candidate else Artifact, state.path)
    && (r.status == Artifact ==> a.(path := state.path) in artifacts)
  }

  ghost predicate AllApplied(r: Report)
  {
    forall i :: 0 <= i < |r.results| ==> r.results[i].status == Applied
  }

  ghost predicate NoneApplied(r: Report)
  {
    forall i :: 0 <= i < |r.results| ==> r.results[i].status != Applied
  }

  function Unapplied(results: seq<Result>, applied: nat): (reset: seq<Result>)
    requires applied <= |results|
    ensures |reset| == |results|
  {
    seq(|results|, i requires 0 <= i < |results| => if i < applied then results[i].(status := Candidate) else results[i])
  }

  lemma CalmAt(s: Surroundings, n: nat)
    requires Calm(s)
    ensures s.beforeInspect(n) == map[]
  {
  }

  lemma ReportedStays(rules: Rules, r: Result, a: Application, state: State, before: seq<Application>, after: seq<Application>)
    requires Reported(rules, r, a, state, before) && before <= after
    ensures Reported(rules, r, a, state, after)
  {
  }

  lemma NowReported(rules: Rules, a: Application, state: State, matched: bool, artifacts: seq<Application>)
    requires matched == Matches(rules, state.preimage, state.original) && (!matched ==> a.(path := state.path) in artifacts)
    ensures Reported(rules, Result(if matched then Candidate else Artifact, state.path), a, state, artifacts)
  {
  }

  lemma HonestEmpty(files: map<string, File>)
    ensures Honest(files, [])
  {
  }

  lemma HonestAppend(files: map<string, File>, states: seq<State>, state: State)
    ensures Honest(files, states) && Honest(files, [state]) ==> Honest(files, states + [state])
  {
    assert [state][0] == state;
  }

  lemma AllMatchEmpty(rules: Rules)
    ensures AllMatch(rules, [])
  {
  }

  lemma QuietAt(s: Surroundings, n: nat)
    requires Quiet(s)
    ensures s.beforeInspect(n) == map[] && n !in s.inspectFails
  {
  }

  lemma FreshNext(rules: Rules, files: map<string, File>, apps: seq<Application>, states: seq<State>, taken: set<string>)
    requires AllFresh(rules, files, apps) && |states| < |apps|
    requires forall j :: 0 <= j < |states| ==> Fits(rules, apps[j], states[j])
    requires taken == set j | 0 <= j < |states| :: rules.upper(states[j].path)
    ensures Fresh(rules, files, apps[|states|])
    ensures rules.normalize(apps[|states|].path).Some?
    ensures rules.upper(rules.normalize(apps[|states|].path).value) !in taken
  {
    forall j | 0 <= j < |states| ensures rules.upper(states[j].path) != rules.upper(rules.normalize(apps[|states|].path).value) {
      assert Fits(rules, apps[j], states[j]);
    }
  }

  lemma QuietCheck(s: Surroundings, n: nat, files: map<string, File>)
    requires Quiet(s)
    ensures Changed(files, s.beforeCheck(n)) == files && n !in s.checkFails && n !in s.writeFails
  {
  }

  lemma MatchAt(rules: Rules, states: seq<State>, n: nat)
    requires AllMatch(rules, states) && n < |states|
    ensures Matches(rules, states[n].preimage, states[n].original)
  {
  }

  ghost predicate AllReady(rules: Rules, files: map<string, File>, states: seq<State>)
  {
    forall i :: 0 <= i < |states| ==> Matches(rules, states[i].preimage, Look(files, states[i].path))
  }

  lemma ReadyElsewhere(rules: Rules, before: map<string, File>, after: map<string, File>, states: seq<State>, n: nat)
    requires n < |states| && DistinctTargets(states)
    ensures AllReady(rules, before, states[n..]) && after == before[states[n].path := File(states[n].content, states[n].mode)] ==>
      AllReady(rules, after, states[n + 1..])
  {
    forall i | n < i < |states| ensures states[n + 1..][i - n - 1] == states[n..][i - n] == states[i] {
    }
  }

  lemma SameAsItself(files: map<string, File>)
    ensures SameText(files, files)
  {
  }

  lemma NothingWritten(files: map<string, File>, world: map<string, File>, states: seq<State>, s: Surroundings)
    requires SameText(files, world)
    ensures Restoring(files, world, states, 0, 0, false, s)
  {
  }

  ghost predicate Inspected(rules: Rules, apps: seq<Application>, states: seq<State>)
  {
    |states| == |apps| && DistinctTargets(states) && forall i :: 0 <= i < |apps| ==> Fits(rules, apps[i], states[i])
  }

  ghost predicate AllMatch(rules: Rules, states: seq<State>)
  {
    forall i :: 0 <= i < |states| ==> Matches(rules, states[i].preimage, states[i].original)
  }

  lemma AllMatchAppend(rules: Rules, states: seq<State>, state: State)
    ensures AllMatch(rules, states + [state]) <==> AllMatch(rules, states) && Matches(rules, state.preimage, state.original)
  {
    var longer := states + [state];
    if AllMatch(rules, longer) {
      assert longer[|states|] == state;
      forall i | 0 <= i < |states| ensures Matches(rules, states[i].preimage, states[i].original) {
        assert longer[i] == states[i];
      }
    }
  }
}
