/** Every run of the checkpoint store and its controller, with a crash between any two steps
    (internal/cache/checkpoint.go driven by internal/assure/resume.go).

    A configuration holds the disk, the digest the process remembers, the last acknowledged state
    and what the process is doing.  `Layout` is the explanation of a disk that the invariant keeps:
    a base, stale lines of older bases, lines of the current base, and a torn tail. */
module CrashRuns {
  import opened Wrappers
  import opened Ordering
  import opened Checkpoint
  import opened Journal

  datatype Phase =
    | Idle
    | Putting(next: State, renamed: bool)
    | Appending(unit: Unit, written: nat)
    | Failed(flight: Option<State>)
    | Deleted
    | Off
    | Down(flight: Option<State>)

  datatype Config = Config(disk: Disk, digest: string, acked: Option<State>, phase: Phase)

  /** The state that the operation under way, or cut short by a crash, would establish. */
  function InFlight(c: Config): Option<State>
  {
    match c.phase
    case Putting(next, _) => Some(next)
    case Appending(unit, _) => if c.acked.None? then None else Some(ApplyUnit(c.acked.value, unit))
    case Failed(flight) => flight
    case Down(flight) => flight
    case _ => c.acked
  }

  function Cold(id: string): State
  {
    State(SCHEMA_V1, id, 1, Baseline(false, false, "", "", [], [], None), None, None)
  }

  /** Something beyond the identity has been saved; only such a state is ever journaled against. */
  predicate Warm(s: State)
  {
    s.baseline.buildVetComplete || s.mutation.Some?
  }

  /** What saveBaseline and saveMutant check before journaling instead of rewriting the base. */
  ghost predicate MayAppend(s: State, unit: Unit)
  {
    && Accepts(s, unit) && Valid(ApplyUnit(s, unit))
    && (!unit.ResultUnit? ==> s.baseline.buildVetComplete && !s.baseline.complete)
  }

  function AppendData(k: Codec, id: string, digest: string, unit: Unit): string
  {
    Line(k, id, digest, unit) + "\n"
  }

  // ---- Transitions ----

  function Init(): Config
  {
    Config(Disk(None, None), "", None, Down(None))
  }

  /** A process starts: it recovers, and its first write is a base with one more attempt. */
  ghost predicate Open(k: Codec, id: string, c: Config, d: Config)
  {
    var r := Recover(k, id, c.disk);
    && c.phase.Down? && !r.Corrupt?
    && (r.Found? ==> d == Config(c.disk, k.hash(c.disk.base.value), Some(r.state),
                                 Putting(r.state.(attempts := r.state.attempts + 1), false)))
    && (r.Absent? ==> d == Config(c.disk, "", None, Putting(Cold(id), false)))
  }

  ghost predicate PutBegins(id: string, c: Config, d: Config)
  {
    && c.phase.Idle? && d.phase.Putting? && d == c.(phase := Putting(d.phase.next, false))
    && Valid(d.phase.next) && d.phase.next.inputDigest == id
    && c.acked.Some? && d.phase.next.attempts == c.acked.value.attempts
  }

  predicate PutRenames(k: Codec, c: Config, d: Config)
  {
    && c.phase.Putting? && !c.phase.renamed
    && var text := BaseText(k, c.phase.next);
       d == c.(disk := Renamed(c.disk, text), digest := k.hash(text), phase := Putting(c.phase.next, true))
  }

  predicate PutCompletes(c: Config, d: Config)
  {
    && c.phase.Putting? && c.phase.renamed
    && d == c.(disk := JournalRemoved(c.disk), acked := Some(c.phase.next), phase := Idle)
  }

  ghost predicate AppendBegins(c: Config, d: Config)
  {
    && c.phase.Idle? && d.phase.Appending? && d == c.(phase := Appending(d.phase.unit, 0))
    && c.acked.Some? && MayAppend(c.acked.value, d.phase.unit)
  }

  predicate AppendWrites(k: Codec, id: string, c: Config, d: Config)
  {
    && c.phase.Appending? && d.phase.Appending? && d.phase.unit == c.phase.unit
    && var data := AppendData(k, id, c.digest, c.phase.unit);
       && c.phase.written <= d.phase.written <= |data|
       && d == c.(disk := Extended(c.disk, data[c.phase.written..d.phase.written]), phase := d.phase)
  }

  predicate AppendCompletes(k: Codec, id: string, c: Config, d: Config)
  {
    && c.phase.Appending? && c.acked.Some?
    && c.phase.written == |AppendData(k, id, c.digest, c.phase.unit)|
    && d == c.(acked := Some(ApplyUnit(c.acked.value, c.phase.unit)), phase := Idle)
  }

  /** The operation under way reports an error; the controller then only deletes. */
  predicate Fails(c: Config, d: Config)
  {
    && (c.phase.Putting? || c.phase.Appending?)
    && d == c.(phase := Failed(InFlight(c)))
  }

  /** The controller discards a finished run's checkpoint. */
  predicate Discards(c: Config, d: Config)
  {
    c.phase.Idle? && d == c.(phase := Failed(None))
  }

  predicate DeletesBase(c: Config, d: Config)
  {
    c.phase.Failed? && d == c.(disk := BaseRemoved(c.disk), acked := None, phase := Deleted)
  }

  predicate DeletesJournal(c: Config, d: Config)
  {
    c.phase.Deleted? && d == c.(disk := JournalRemoved(c.disk), digest := "", phase := Off)
  }

  predicate Crashes(c: Config, d: Config)
  {
    !c.phase.Down? && d == c.(digest := "", phase := Down(InFlight(c)))
  }

  ghost predicate Next(k: Codec, id: string, c: Config, d: Config)
  {
    || Open(k, id, c, d) || PutBegins(id, c, d) || PutRenames(k, c, d) || PutCompletes(c, d)
    || AppendBegins(c, d) || AppendWrites(k, id, c, d) || AppendCompletes(k, id, c, d)
    || Fails(c, d) || Discards(c, d) || DeletesBase(c, d) || DeletesJournal(c, d) || Crashes(c, d)
  }

  // ---- Layouts ----

  datatype Stale = Stale(owner: State, unit: Unit)

  datatype Layout = Layout(base: Option<State>, stale: seq<Stale>, current: seq<Unit>, tail: string)

  function StaleLines(k: Codec, id: string, stale: seq<Stale>): (lines: seq<string>)
    ensures |lines| == |stale|
  {
    if stale == [] then []
    else [Line(k, id, k.hash(BaseText(k, stale[0].owner)), stale[0].unit)] + StaleLines(k, id, stale[1..])
  }

  function Owned(owner: State, units: seq<Unit>): (owned: seq<Stale>)
    ensures |owned| == |units| && forall i :: 0 <= i < |units| ==> owned[i] == Stale(owner, units[i])
  {
    seq(|units|, i requires 0 <= i < |units| => Stale(owner, units[i]))
  }

  function Lines(k: Codec, id: string, w: Layout): seq<string>
  {
    StaleLines(k, id, if w.base.None? then w.stale else w.stale + Owned(w.base.value, w.current))
  }

  ghost predicate DiskIs(k: Codec, id: string, disk: Disk, w: Layout)
  {
    && disk.base == (if w.base.None? then None else Some(BaseText(k, w.base.value)))
    && LineFree(w.tail)
    && (if disk.journal.None? then Lines(k, id, w) == [] && w.tail == ""
        else disk.journal.value == JournalText(Lines(k, id, w), w.tail))
  }

  ghost predicate StaleTo(s: Stale, base: Option<State>)
  {
    && Warm(s.owner) && Canonical(s.owner) == s.owner
    && (base.Some? ==> s.owner != base.value && (s.owner.attempts <= base.value.attempts || !Warm(base.value)))
  }

  /** A stale line's owner can never come back as the content of a later base. */
  ghost predicate Tidy(id: string, w: Layout)
  {
    && (forall s :: s in w.stale ==> StaleTo(s, w.base))
    && (w.base.None? ==> w.current == [])
    && (w.current != [] ==> Warm(w.base.value))
    && (w.base.Some? ==> Valid(w.base.value) && Canonical(w.base.value) == w.base.value && w.base.value.inputDigest == id)
  }

  function ApplyAll(s: State, units: seq<Unit>): State
    decreases |units|
  {
    if units == [] then s else ApplyAll(ApplyUnit(s, units[0]), units[1..])
  }

  ghost predicate AcceptsAll(s: State, units: seq<Unit>)
    decreases |units|
  {
    units == [] || (Accepts(s, units[0]) && AcceptsAll(ApplyUnit(s, units[0]), units[1..]))
  }

  /** The layout stands for `x`, up to the order of units. */
  ghost predicate Recoverable(w: Layout, x: Option<State>)
  {
    if x.None? then w.base.None? else Valid(x.value) && Stands(w, x.value)
  }

  /** So it does, whether the state is valid or not. */
  ghost predicate Stands(w: Layout, x: State)
  {
    && w.base.Some? && AcceptsAll(w.base.value, w.current)
    && SameUnits(ApplyAll(w.base.value, w.current), x)
  }

  lemma {:induction false} ApplyAllAppend(s: State, units: seq<Unit>, u: Unit)
    requires AcceptsAll(s, units) && Accepts(ApplyAll(s, units), u)
    ensures AcceptsAll(s, units + [u])
    ensures ApplyAll(s, units + [u]) == ApplyUnit(ApplyAll(s, units), u)
    decreases |units|
  {
    if units == [] {
      assert ([] + [u])[1..] == [];
    } else {
      assert (units + [u])[1..] == units[1..] + [u];
      ApplyAllAppend(ApplyUnit(s, units[0]), units[1..], u);
    }
  }

  /** Journaled units leave the attempt count and the temperature alone. */
  lemma {:induction false} ApplyAllKeeps(s: State, units: seq<Unit>)
    ensures ApplyAll(s, units).attempts == s.attempts
    ensures Warm(ApplyAll(s, units)) <==> Warm(s)
    ensures ApplyAll(s, units).inputDigest == s.inputDigest
    decreases |units|
  {
    if units != [] {
      ApplyAllKeeps(ApplyUnit(s, units[0]), units[1..]);
    }
  }

  lemma SameIds<V>(a: seq<Keyed<V>>, b: seq<Keyed<V>>)
    requires multiset(a) == multiset(b)
    ensures Ids(a) == Ids(b)
  {
    SameMembers(a, b);
    forall x ensures x in Ids(a) <==> x in Ids(b) {
      if x in Ids(a) {
        var i :| 0 <= i < |a| && a[i].id == x;
        assert a[i] in b;
      }
      if x in Ids(b) {
        var i :| 0 <= i < |b| && b[i].id == x;
        assert b[i] in a;
      }
    }
  }

  lemma SameUnitsApply(a: State, b: State, u: Unit)
    requires SameUnits(a, b)
    ensures Accepts(a, u) <==> Accepts(b, u)
    ensures SameUnits(ApplyUnit(a, u), ApplyUnit(b, u))
  {
    match u
    case TargetUnit(t) => SameIds(a.baseline.targets, b.baseline.targets);
    case SuiteUnit(s) => SameIds(a.baseline.suites, b.baseline.suites);
    case ResultUnit(r) =>
      if a.mutation.Some? {
        SameIds(a.mutation.value.results, b.mutation.value.results);
      }
  }

  // ---- Recovery reads a layout back ----

  lemma BaseTextInjective(k: Codec, a: State, b: State)
    requires Lawful(k) && k.hash(BaseText(k, a)) == k.hash(BaseText(k, b))
    ensures Canonical(a) == Canonical(b)
  {
    assert k.decodeState(k.encodeState(Canonical(a))) == Some(Canonical(a));
    assert k.decodeState(k.encodeState(Canonical(b))) == Some(Canonical(b));
  }

  lemma LineReads(k: Codec, id: string, digest: string, u: Unit)
    requires Lawful(k)
    ensures var decoded := k.decodeRecord(Line(k, id, digest, u));
      && decoded == Some(RecordOf(k, id, digest, u)) && Authentic(k, id, decoded.value)
      && UnitCount(decoded.value) == 1 && UnitOf(decoded.value) == u
    ensures LineFree(Line(k, id, digest, u))
  {
    var r := RecordOf(k, id, digest, u);
    assert r.(checksum := "") == JournalRecord(r.schema, r.inputDigest, r.baseDigest, r.target, r.suite, r.result, "");
  }

  lemma {:induction false} StaleLinesConcat(k: Codec, id: string, a: seq<Stale>, b: seq<Stale>)
    ensures StaleLines(k, id, a + b) == StaleLines(k, id, a) + StaleLines(k, id, b)
  {
    if a == [] {
      assert a + b == b;
    } else {
      assert (a + b)[1..] == a[1..] + b;
      StaleLinesConcat(k, id, a[1..], b);
    }
  }

  lemma {:induction false} StaleLinesPlain(k: Codec, id: string, stale: seq<Stale>)
    requires Lawful(k)
    ensures Plain(StaleLines(k, id, stale))
  {
    if stale != [] {
      LineReads(k, id, k.hash(BaseText(k, stale[0].owner)), stale[0].unit);
      StaleLinesPlain(k, id, stale[1..]);
    }
  }

  lemma {:induction false} ReplayStale(k: Codec, id: string, base: State, stale: seq<Stale>, rest: seq<string>)
    requires Lawful(k) && Canonical(base) == base
    requires forall s :: s in stale ==> Canonical(s.owner) == s.owner && s.owner != base
    ensures Replay(k, id, k.hash(BaseText(k, base)), StaleLines(k, id, stale) + rest, base, false)
         == Replay(k, id, k.hash(BaseText(k, base)), rest, base, false)
  {
    if stale == [] {
      assert StaleLines(k, id, stale) + rest == rest;
    } else {
      var lines := StaleLines(k, id, stale) + rest;
      var digest := k.hash(BaseText(k, stale[0].owner));
      assert stale[0] in stale;
      if digest == k.hash(BaseText(k, base)) {
        BaseTextInjective(k, stale[0].owner, base);
      }
      LineReads(k, id, digest, stale[0].unit);
      assert lines[1..] == StaleLines(k, id, stale[1..]) + rest;
      ReplayStale(k, id, base, stale[1..], rest);
    }
  }

  lemma {:induction false} ReplayCurrent(k: Codec, id: string, base: State, s: State, units: seq<Unit>,
                                         rest: seq<string>, seen: bool)
    requires Lawful(k) && AcceptsAll(s, units)
    ensures Replay(k, id, k.hash(BaseText(k, base)), StaleLines(k, id, Owned(base, units)) + rest, s, seen)
         == Replay(k, id, k.hash(BaseText(k, base)), rest, ApplyAll(s, units), seen || units != [])
    decreases |units|
  {
    var lines := StaleLines(k, id, Owned(base, units)) + rest;
    if units == [] {
      assert lines == rest;
    } else {
      LineReads(k, id, k.hash(BaseText(k, base)), units[0]);
      assert Owned(base, units)[1..] == Owned(base, units[1..]);
      assert lines[1..] == StaleLines(k, id, Owned(base, units[1..])) + rest;
      ReplayCurrent(k, id, base, ApplyUnit(s, units[0]), units[1..], rest, true);
    }
  }

  /** The complete lines of an explained journal replay to the units of its layout. */
  lemma ReplayLayout(k: Codec, id: string, w: Layout)
    requires Lawful(k) && Tidy(id, w) && w.base.Some? && AcceptsAll(w.base.value, w.current)
    ensures Replay(k, id, k.hash(BaseText(k, w.base.value)), Lines(k, id, w), w.base.value, false)
         == Some(ApplyAll(w.base.value, w.current))
  {
    var b := w.base.value;
    StaleLinesConcat(k, id, w.stale, Owned(b, w.current));
    ReplayStale(k, id, b, w.stale, StaleLines(k, id, Owned(b, w.current)));
    assert StaleLines(k, id, Owned(b, w.current)) + [] == StaleLines(k, id, Owned(b, w.current));
    ReplayCurrent(k, id, b, b, w.current, [], false);
  }

  lemma {:induction false} NoLastNewline(data: string)
    requires LineFree(data)
    ensures LastNewline(data) < 0
  {
    if data != [] {
      assert data[|data| - 1] in data;
      NoLastNewline(data[..|data| - 1]);
    }
  }

  /** The text of a journal gives back its complete lines, and drops the torn tail. */
  lemma JournalTextReads(lines: seq<string>, tail: string)
    requires Plain(lines) && LineFree(tail)
    ensures var data := JournalText(lines, tail); var i := LastNewline(data);
      if lines == [] then i < 0 else i >= 0 && Split(data[..i]) == lines
  {
    var data := JournalText(lines, tail);
    if lines == [] {
      NoLastNewline(tail);
    } else {
      LastNewlineAt(Joined(lines), tail);
      assert data[..|Joined(lines)|] == Joined(lines);
      SplitJoined(lines);
    }
  }

  lemma {:induction false} ApplyAllDistinct(s: State, units: seq<Unit>)
    requires DistinctUnits(s) && AcceptsAll(s, units)
    ensures DistinctUnits(ApplyAll(s, units))
    decreases |units|
  {
    if units != [] {
      ApplyUnitDistinct(s, units[0]);
      ApplyAllDistinct(ApplyUnit(s, units[0]), units[1..]);
    }
  }

  lemma ApplyUnitDistinct(s: State, u: Unit)
    requires DistinctUnits(s) && Accepts(s, u)
    ensures DistinctUnits(ApplyUnit(s, u))
  {
    match u
    case TargetUnit(t) => DistinctIdsAppend(s.baseline.targets, t);
    case SuiteUnit(t) => DistinctIdsAppend(s.baseline.suites, t);
    case ResultUnit(r) => DistinctIdsAppend(s.mutation.value.results, r);
  }

  lemma DistinctIdsAppend<V>(s: seq<Keyed<V>>, u: Keyed<V>)
    requires DistinctIds(s) && u.id !in Ids(s)
    ensures DistinctIds(s + [u])
  {
    forall i | 0 <= i < |s| ensures s[i].id != u.id {
      assert s[i].id in Ids(s);
    }
  }

  /** What recovery makes of a state that the disk stands for: an invalid one is refused. */
  ghost function Outcome(x: State): Recovery
  {
    if Valid(x) then Found(Canonical(x)) else Corrupt
  }

  /** Recovery of a disk that a layout explains yields the outcome of what the layout stands for. */
  lemma RecoverReadsAny(k: Codec, id: string, disk: Disk, w: Layout, x: State)
    requires Lawful(k) && DiskIs(k, id, disk, w) && Tidy(id, w) && Stands(w, x)
    ensures Recover(k, id, disk) == Outcome(x)
  {
    var b := w.base.value;
    assert k.decodeState(disk.base.value) == Some(b);
    ApplyAllDistinct(b, w.current);
    DistinctUnitsSameCanonical(ApplyAll(b, w.current), x);
    CanonicalSameUnits(x);
    ValidUpToOrder(Canonical(x), x);
    StaleLinesPlain(k, id, w.stale + Owned(b, w.current));
    JournalTextReads(Lines(k, id, w), w.tail);
    ReplayLayout(k, id, w);
    JournalApplies(k, id, disk, w, x);
  }

  /** A line that is no record of this checkpoint: unreadable, of another schema or identity, or with a
      checksum that is not that of its fields. */
  ghost predicate Damaged(k: Codec, id: string, line: string)
  {
    var d := k.decodeRecord(line);
    d.None? || d.value.schema != "assurance-checkpoint-journal-v1" || d.value.inputDigest != id || d.value.checksum == "" ||
    d.value.checksum != k.hash(k.encodeRecord(d.value.(checksum := "")))
  }

  /** A record of this base that does not carry exactly one unit, or one of another base behind one of this. */
  ghost predicate Misplaced(k: Codec, digest: string, lines: seq<string>, i: nat)
    requires i < |lines|
  {
    k.decodeRecord(lines[i]).Some? &&
    var r := k.decodeRecord(lines[i]).value;
    if r.baseDigest == digest then UnitCount(r) != 1
    else exists j :: 0 <= j < i && k.decodeRecord(lines[j]).Some? && k.decodeRecord(lines[j]).value.baseDigest == digest
  }

  lemma {:induction false} ReplayRefuses(k: Codec, id: string, digest: string, lines: seq<string>, s: State, seen: bool, i: nat)
    requires i < |lines|
    requires Damaged(k, id, lines[i]) || Misplaced(k, digest, lines, i) ||
             (seen && k.decodeRecord(lines[i]).Some? && k.decodeRecord(lines[i]).value.baseDigest != digest)
    ensures Replay(k, id, digest, lines, s, seen).None?
    decreases |lines|
  {
    var d := k.decodeRecord(lines[0]);
    if i > 0 && d.Some? && Authentic(k, id, d.value) {
      var rest := lines[1..];
      assert rest[i - 1] == lines[i];
      var current := d.value.baseDigest == digest;
      if Misplaced(k, digest, lines, i) && k.decodeRecord(lines[i]).value.baseDigest != digest && !current {
        var j :| 0 <= j < i && k.decodeRecord(lines[j]).Some? && k.decodeRecord(lines[j]).value.baseDigest == digest;
        assert rest[j - 1] == lines[j];
      }
      if !current {
        if !seen {
          ReplayRefuses(k, id, digest, rest, s, false, i - 1);
        }
      } else if UnitCount(d.value) == 1 && Accepts(s, UnitOf(d.value)) {
        ReplayRefuses(k, id, digest, rest, ApplyUnit(s, UnitOf(d.value)), true, i - 1);
      }
    }
  }

  /** Recovery refuses a base it cannot read, an invalid one and one of another identity; and a journal with
      a complete line that is damaged or misplaced, wherever that stands. */
  lemma RefusesDamage(k: Codec, id: string, disk: Disk, lines: seq<string>, tail: string, i: nat)
    requires disk.base.Some?
    ensures
      var base := k.decodeState(disk.base.value);
      base.None? || !Valid(base.value) || base.value.inputDigest != id ==> Recover(k, id, disk) == Corrupt
    ensures
      var holds := Plain(lines) && LineFree(tail) && disk.journal == Some(JournalText(lines, tail)) && i < |lines|;
      var bad := holds && (Damaged(k, id, lines[i]) || Misplaced(k, k.hash(disk.base.value), lines, i));
      bad ==> Recover(k, id, disk) == Corrupt
  {
    if Plain(lines) && LineFree(tail) && disk.journal == Some(JournalText(lines, tail)) && i < |lines| {
      JournalTextReads(lines, tail);
      if Damaged(k, id, lines[i]) || Misplaced(k, k.hash(disk.base.value), lines, i) {
        hide Damaged, Misplaced, Valid, Replay;
        var base := k.decodeState(disk.base.value);
        if base.Some? {
          ReplayRefuses(k, id, k.hash(disk.base.value), lines, base.value, false, i);
        }
      }
    }
  }

  /** Recovery of a disk that a layout explains yields exactly the state the layout stands for. */
  lemma RecoverReadsLayout(k: Codec, id: string, disk: Disk, w: Layout, x: Option<State>)
    requires Lawful(k) && DiskIs(k, id, disk, w) && Tidy(id, w) && Recoverable(w, x)
    ensures x.None? ==> Recover(k, id, disk) == Absent
    ensures x.Some? ==> Recover(k, id, disk) == Found(Canonical(x.value))
  {
    if x.Some? {
      RecoverReadsAny(k, id, disk, w, x.value);
    }
  }

  lemma JournalApplies(k: Codec, id: string, disk: Disk, w: Layout, x: State)
    requires DiskIs(k, id, disk, w) && Tidy(id, w) && w.base.Some?
    requires Plain(Lines(k, id, w))
    requires Replay(k, id, k.hash(BaseText(k, w.base.value)), Lines(k, id, w), w.base.value, false)
          == Some(ApplyAll(w.base.value, w.current))
    requires Canonical(ApplyAll(w.base.value, w.current)) == Canonical(x) && (Valid(Canonical(x)) <==> Valid(x))
    ensures ApplyJournal(k, id, k.hash(BaseText(k, w.base.value)), disk.journal, w.base.value) ==
            if Valid(x) then Some(Canonical(x)) else None
  {
    var lines := Lines(k, id, w);
    JournalTextReads(lines, w.tail);
    if lines == [] {
      assert w.current == [];
    }
  }

  lemma SameUnitsTransitive(a: State, b: State, c: State)
    requires SameUnits(a, b) && SameUnits(b, c)
    ensures SameUnits(a, c)
  {
  }

  // ---- The invariant ----

  ghost predicate Clean(k: Codec, c: Config, w: Layout)
  {
    w.stale == [] && w.base.Some? && c.digest == k.hash(BaseText(k, w.base.value))
  }

  /** The base about to be published cannot be mistaken for the owner of a line on disk, unless it
      repeats the very base that is there. */
  ghost predicate Distinguished(w: Layout, next: State)
  {
    if w.base.None? then !Warm(next)
    else
      || (w.base.value.attempts < next.attempts && (Warm(w.base.value) <==> Warm(next)))
      || (w.stale == [] && w.base.value.attempts == next.attempts)
  }

  ghost predicate PhaseInv(k: Codec, id: string, c: Config, w: Layout)
  {
    match c.phase
    case Idle => c.acked.Some? && Clean(k, c, w) && w.tail == "" && Recoverable(w, c.acked)
    case Putting(next, renamed) =>
      && Valid(next) && next.inputDigest == id
      && (if renamed then
            && w.base == Some(Canonical(next)) && c.digest == k.hash(BaseText(k, next))
            && (Recoverable(w, c.acked) || Recoverable(w, Some(next)))
          else Recoverable(w, c.acked) && Distinguished(w, next))
    case Appending(unit, written) =>
      && c.acked.Some? && Clean(k, c, w) && MayAppend(c.acked.value, unit)
      && var line := Line(k, id, c.digest, unit);
         if written <= |line| then Recoverable(w, c.acked) && w.tail == line[..written]
         else written == |line| + 1 && Recoverable(w, InFlight(c)) && w.tail == ""
    case Deleted => c.acked.None? && w.base.None?
    case Off => c.acked.None? && w.base.None?
    case _ => Recoverable(w, c.acked) || Recoverable(w, InFlight(c))
  }

  ghost predicate Inv(k: Codec, id: string, c: Config, w: Layout)
  {
    DiskIs(k, id, c.disk, w) && Tidy(id, w) && PhaseInv(k, id, c, w)
  }

  lemma InvRecovers(k: Codec, id: string, c: Config, w: Layout)
    ensures Inv(k, id, c, w) ==> Recoverable(w, c.acked) || Recoverable(w, InFlight(c))
  {
  }

  lemma OpenKeeps(k: Codec, id: string, c: Config, d: Config, w: Layout)
    requires Lawful(k) && ValidSha256(id) && Inv(k, id, c, w) && Open(k, id, c, d)
    ensures Inv(k, id, d, w)
  {
    InvRecovers(k, id, c, w);
    var x := if Recoverable(w, c.acked) then c.acked else InFlight(c);
    RecoverReadsLayout(k, id, c.disk, w, x);
    if x.Some? {
      var b, r := w.base.value, Canonical(x.value);
      CanonicalValid(x.value);
      CanonicalSameUnits(x.value);
      SameUnitsSymmetric(r, x.value);
      SameUnitsTransitive(ApplyAll(b, w.current), x.value, r);
      ApplyAllKeeps(b, w.current);
      var next := r.(attempts := r.attempts + 1);
      assert Valid(next);
    } else {
      assert Valid(Cold(id));
    }
  }

  lemma PutBeginsKeeps(k: Codec, id: string, c: Config, d: Config, w: Layout)
    requires Lawful(k) && Inv(k, id, c, w) && PutBegins(id, c, d)
    ensures Inv(k, id, d, w)
  {
    ApplyAllKeeps(w.base.value, w.current);
  }

  /** The lines of the base that a rename replaces join the stale ones. */
  function Retired(w: Layout): seq<Stale>
  {
    if w.base.None? then w.stale else w.stale + Owned(w.base.value, w.current)
  }

  lemma RetiredStaysStale(id: string, w: Layout, next: State)
    requires Tidy(id, w) && Distinguished(w, next) && w.base != Some(Canonical(next))
    requires Valid(next) && next.inputDigest == id
    ensures Tidy(id, Layout(Some(Canonical(next)), Retired(w), [], w.tail))
  {
    var n := Canonical(next);
    CanonicalValid(next);
    forall s | s in Retired(w) ensures StaleTo(s, Some(n)) {
      if s in w.stale {
        assert StaleTo(s, w.base);
      } else {
        assert s in Owned(w.base.value, w.current);
      }
    }
  }

  /** A rename either repeats the base, and recovery still sees the acknowledged state, or turns
      every line into a stale one, and recovery sees the new state. */
  lemma PutRenamesKeeps(k: Codec, id: string, c: Config, d: Config, w: Layout) returns (v: Layout)
    requires Inv(k, id, c, w) && PutRenames(k, c, d)
    ensures Inv(k, id, d, v)
  {
    var next := c.phase.next;
    var n := Canonical(next);
    CanonicalValid(next);
    assert BaseText(k, n) == BaseText(k, next);
    if w.base == Some(n) {
      v := w;
    } else {
      v := Layout(Some(n), Retired(w), [], w.tail);
      RetiredStaysStale(id, w, next);
      RetiredLines(k, id, w, n);
      RetiredStands(v, next);
      hide Lines, Stands, Tidy, Valid, Canonical, BaseText;
    }
  }

  lemma RetiredLines(k: Codec, id: string, w: Layout, n: State)
    ensures Lines(k, id, Layout(Some(n), Retired(w), [], w.tail)) == Lines(k, id, w)
  {
    assert Retired(w) + Owned(n, []) == Retired(w);
  }

  lemma RetiredStands(v: Layout, next: State)
    requires Valid(next) && v.base == Some(Canonical(next)) && v.current == []
    ensures Recoverable(v, Some(next))
  {
    CanonicalSameUnits(next);
  }

  lemma PutCompletesKeeps(k: Codec, id: string, c: Config, d: Config, w: Layout) returns (v: Layout)
    requires Lawful(k) && Inv(k, id, c, w) && PutCompletes(c, d)
    ensures Inv(k, id, d, v)
  {
    var next := c.phase.next;
    v := Layout(Some(Canonical(next)), [], [], "");
    CanonicalSameUnits(next);
    CanonicalValid(next);
    assert v.stale + Owned(Canonical(next), []) == [];
  }

  /** Part of a line, or more of it, leaves a torn tail. */
  lemma TailGrows(k: Codec, id: string, disk: Disk, w: Layout, line: string, from: nat, to: nat)
    requires DiskIs(k, id, disk, w) && LineFree(line) && from <= to <= |line| && w.tail == line[..from]
    ensures DiskIs(k, id, Extended(disk, (line + "\n")[from..to]), w.(tail := line[..to]))
  {
    var lines := Lines(k, id, w);
    assert (line + "\n")[from..to] == line[from..to];
    assert line[..from] + line[from..to] == line[..to];
    JournalTextTail(lines, line[..from], line[from..to]);
    assert Lines(k, id, w.(tail := line[..to])) == lines;
  }

  /** The rest of a line, with its end, is one more unit. */
  lemma LineEnds(k: Codec, id: string, disk: Disk, w: Layout, u: Unit, x: State, from: nat)
    requires DiskIs(k, id, disk, w) && Tidy(id, w) && Stands(w, x) && w.stale == []
    requires Accepts(x, u) && Warm(x)
    requires from <= |Line(k, id, k.hash(BaseText(k, w.base.value)), u)|
    requires w.tail == Line(k, id, k.hash(BaseText(k, w.base.value)), u)[..from]
    ensures
      var line := Line(k, id, k.hash(BaseText(k, w.base.value)), u);
      var v := Layout(w.base, [], w.current + [u], "");
      DiskIs(k, id, Extended(disk, (line + "\n")[from..|line| + 1]), v) && Tidy(id, v) && Stands(v, ApplyUnit(x, u))
  {
    var b := w.base.value;
    var line := Line(k, id, k.hash(BaseText(k, b)), u);
    StandsGrows(id, w, u, x);
    LinesGrow(k, id, w, u);
    JournalTextWhole(Lines(k, id, w), line, from);
    hide Lines, JournalText, Line, BaseText, Tidy, Stands;
  }

  lemma StandsGrows(id: string, w: Layout, u: Unit, x: State)
    requires Tidy(id, w) && Stands(w, x) && w.stale == [] && Accepts(x, u) && Warm(x)
    ensures Tidy(id, Layout(w.base, [], w.current + [u], "")) && Stands(Layout(w.base, [], w.current + [u], ""), ApplyUnit(x, u))
  {
    var b := w.base.value;
    hide Valid, Canonical;
    SameUnitsApply(ApplyAll(b, w.current), x, u);
    ApplyAllAppend(b, w.current, u);
    ApplyAllKeeps(b, w.current);
  }

  lemma LinesGrow(k: Codec, id: string, w: Layout, u: Unit)
    requires w.base.Some? && w.stale == []
    ensures Lines(k, id, Layout(w.base, [], w.current + [u], "")) ==
            Lines(k, id, w) + [Line(k, id, k.hash(BaseText(k, w.base.value)), u)]
  {
    hide BaseText, Line;
    var b := w.base.value;
    assert Owned(b, w.current + [u]) == Owned(b, w.current) + [Stale(b, u)];
    assert [] + Owned(b, w.current + [u]) == w.stale + Owned(b, w.current) + [Stale(b, u)];
    StaleLinesConcat(k, id, w.stale + Owned(b, w.current), [Stale(b, u)]);
    assert StaleLines(k, id, [Stale(b, u)]) == [Line(k, id, k.hash(BaseText(k, b)), u)] + StaleLines(k, id, []);
  }

  lemma AppendTearsTail(k: Codec, id: string, c: Config, d: Config, w: Layout) returns (v: Layout)
    requires Inv(k, id, c, w) && AppendWrites(k, id, c, d)
    requires LineFree(Line(k, id, c.digest, c.phase.unit))
    requires d.phase.written <= |Line(k, id, c.digest, c.phase.unit)|
    ensures Inv(k, id, d, v)
  {
    var line := Line(k, id, c.digest, c.phase.unit);
    v := w.(tail := line[..d.phase.written]);
    TailGrows(k, id, c.disk, w, line, c.phase.written, d.phase.written);
  }

  lemma AppendEndsLine(k: Codec, id: string, c: Config, d: Config, w: Layout) returns (v: Layout)
    requires Inv(k, id, c, w) && AppendWrites(k, id, c, d)
    requires c.phase.written <= |Line(k, id, c.digest, c.phase.unit)| < d.phase.written
    ensures Inv(k, id, d, v)
  {
    var u := c.phase.unit;
    v := Layout(w.base, [], w.current + [u], "");
    LineEnds(k, id, c.disk, w, u, c.acked.value, c.phase.written);
  }

  lemma JournalTextWhole(lines: seq<string>, line: string, from: nat)
    requires from <= |line|
    ensures JournalText(lines, line[..from]) + (line + "\n")[from..|line| + 1] == JournalText(lines + [line], "")
  {
    assert line[..from] + (line + "\n")[from..|line| + 1] == "" + (line + "\n");
    JournalTextTail(lines, line[..from], (line + "\n")[from..|line| + 1]);
    JournalTextTail(lines, "", line + "\n");
    JournalTextAppend(lines, line);
    assert JournalText(lines, "") + line + "\n" == JournalText(lines, "") + (line + "\n");
  }

  lemma AppendWritesKeeps(k: Codec, id: string, c: Config, d: Config, w: Layout) returns (v: Layout)
    requires Lawful(k) && Inv(k, id, c, w) && AppendWrites(k, id, c, d)
    ensures Inv(k, id, d, v)
  {
    var line := Line(k, id, c.digest, c.phase.unit);
    if d.phase.written <= |line| {
      LineReads(k, id, c.digest, c.phase.unit);
      v := AppendTearsTail(k, id, c, d, w);
    } else if c.phase.written <= |line| {
      v := AppendEndsLine(k, id, c, d, w);
    } else {
      v := w;
      assert (line + "\n")[c.phase.written..d.phase.written] == "";
      assert c.disk.journal.Some? ==> c.disk.journal.value + "" == c.disk.journal.value;
    }
  }

  lemma JournalTextTail(lines: seq<string>, a: string, b: string)
    ensures JournalText(lines, a) + b == JournalText(lines, a + b)
  {
    if lines != [] {
      assert Joined(lines) + "\n" + a + b == Joined(lines) + "\n" + (a + b);
    }
  }

  lemma DeletesKeep(k: Codec, id: string, c: Config, d: Config, w: Layout) returns (v: Layout)
    requires Inv(k, id, c, w) && (DeletesBase(c, d) || DeletesJournal(c, d))
    ensures Inv(k, id, d, v)
  {
    if DeletesBase(c, d) {
      v := Layout(None, Retired(w), [], w.tail);
      forall s | s in v.stale ensures StaleTo(s, None) {
        if s in w.stale {
          assert StaleTo(s, w.base);
        } else {
          assert s.owner == w.base.value && w.current != [];
        }
      }
    } else {
      v := Layout(None, [], [], "");
    }
  }

  lemma AppendCompletesKeeps(k: Codec, id: string, c: Config, d: Config, w: Layout)
    requires Inv(k, id, c, w) && AppendCompletes(k, id, c, d)
    ensures Inv(k, id, d, w)
  {
  }

  lemma QuietStepsKeep(k: Codec, id: string, c: Config, d: Config, w: Layout)
    requires Inv(k, id, c, w) && (AppendBegins(c, d) || Fails(c, d) || Discards(c, d) || Crashes(c, d))
    ensures Inv(k, id, d, w)
  {
  }

  /** One step, whichever it is, keeps the disk explained. */
  lemma StepKeeps(k: Codec, id: string, c: Config, d: Config, w: Layout) returns (v: Layout)
    requires Lawful(k) && ValidSha256(id) && Inv(k, id, c, w) && Next(k, id, c, d)
    ensures Inv(k, id, d, v)
  {
    v := w;
    if Open(k, id, c, d) {
      OpenKeeps(k, id, c, d, w);
    } else if PutBegins(id, c, d) {
      PutBeginsKeeps(k, id, c, d, w);
    } else if PutRenames(k, c, d) {
      v := PutRenamesKeeps(k, id, c, d, w);
    } else if PutCompletes(c, d) {
      v := PutCompletesKeeps(k, id, c, d, w);
    } else if AppendWrites(k, id, c, d) {
      v := AppendWritesKeeps(k, id, c, d, w);
    } else if AppendCompletes(k, id, c, d) {
      AppendCompletesKeeps(k, id, c, d, w);
    } else if DeletesBase(c, d) || DeletesJournal(c, d) {
      v := DeletesKeep(k, id, c, d, w);
    } else {
      QuietStepsKeep(k, id, c, d, w);
    }
  }

  ghost predicate IsRun(k: Codec, id: string, run: seq<Config>)
  {
    run != [] && run[0] == Init() && forall i :: 0 <= i < |run| - 1 ==> Next(k, id, run[i], run[i + 1])
  }

  lemma {:induction false} RunKeeps(k: Codec, id: string, run: seq<Config>, i: nat) returns (w: Layout)
    requires Lawful(k) && ValidSha256(id) && IsRun(k, id, run) && i < |run|
    ensures Inv(k, id, run[i], w)
  {
    if i == 0 {
      w := Layout(None, [], [], "");
    } else {
      var v := RunKeeps(k, id, run, i - 1);
      assert Next(k, id, run[i - 1], run[i - 1 + 1]);
      w := StepKeeps(k, id, run[i - 1], run[i], v);
    }
  }

  /** What recovery shows for a logical state. */
  function Shows(x: Option<State>): Recovery
  {
    if x.None? then Absent else Found(Canonical(x.value))
  }

  /** Crash safety: at every point of every run, recovery yields the last acknowledged state or the
      one in flight, in canonical order, and never an error. */
  lemma CrashSafety(k: Codec, id: string, run: seq<Config>, i: nat)
    requires Lawful(k) && ValidSha256(id) && IsRun(k, id, run) && i < |run|
    ensures Recover(k, id, run[i].disk) in {Shows(run[i].acked), Shows(InFlight(run[i]))}
    ensures run[i].phase.Idle? ==> Recover(k, id, run[i].disk) == Shows(run[i].acked)
  {
    var w := RunKeeps(k, id, run, i);
    InvRecovers(k, id, run[i], w);
    var x := if Recoverable(w, run[i].acked) then run[i].acked else InFlight(run[i]);
    RecoverReadsLayout(k, id, run[i].disk, w, x);
  }

  /** A process that dies between operations is resumed by the next one exactly where it stood. */
  lemma ResumeContinues(k: Codec, id: string, run: seq<Config>, i: nat)
    requires Lawful(k) && ValidSha256(id) && IsRun(k, id, run) && i + 2 < |run|
    requires run[i].phase.Idle? && run[i].acked.Some?
    requires Crashes(run[i], run[i + 1]) && Open(k, id, run[i + 1], run[i + 2])
    ensures run[i + 2].acked == Some(Canonical(run[i].acked.value))
    ensures run[i + 2].phase.Putting?
    ensures run[i + 2].phase.next.attempts == run[i].acked.value.attempts + 1
    ensures run[i + 2].phase.next.baseline == CanonicalBaseline(run[i].acked.value.baseline)
  {
    CrashSafety(k, id, run, i);
  }
}
