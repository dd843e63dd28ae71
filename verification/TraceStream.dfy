/** The trace of a run: the recorder and its in-memory ring (internal/trace/trace.go, sink.go) and the
    reader that summarises a stream (reader.go). */
module TraceStream {
  import opened Wrappers

  datatype RunRecord = RunRecord(verdict: string, error: string, emitted: int, dropped: int)

  datatype PrepareRecord = PrepareRecord(phase: string, state: string, result: string, duration: Option<int>)

  /** The types of an event, with the payload each must carry.  Malformed is a line of an unknown type,
      without its timestamp, or without exactly that payload. */
  datatype Kind =
    | RunStart(schema: string) | PhaseStart(phase: string) | PhaseEnd(phase: string, ms: int)
    | Prepare(prepare: PrepareRecord) | Exec | MutantExec | Route(granularity: string) | ProbeExec | Progress | Artifact
    | RunEnd(run: RunRecord) | Malformed(name: string)

  datatype Event = Event(number: int, elapsed: int, kind: Kind)

  const SCHEMA_V1 := "goatest-trace-v1"

  const PREPARE_PHASES := {
    "discovery", "probe_snapshot", "main_validation", "main_restoration", "verification", "binary_build",
    "probe_validation", "probe_coverage_build", "probe_restoration"
  }

  // ---- the writer, as steps on a value

  datatype Trace = Trace(capacity: int, events: seq<Event>, closed: bool, dropped: int,
                         last: int, attempts: int, failures: int, ended: bool)

  function Room(capacity: int, kind: Kind): int
  {
    if kind.RunEnd? then capacity else capacity - 1
  }

  /** Append, and shift out what exceeds the room; room for the last event is reserved. */
  function Retain(t: Trace, e: Event): Trace
  {
    var events := t.events + [e];
    var overflow := |events| - Room(t.capacity, e.kind);
    if t.capacity <= 0 || overflow <= 0 then t.(events := events)
    else t.(events := events[overflow..], dropped := t.dropped + overflow)
  }

  function EmitStep(t: Trace, kind: Kind, elapsed: int): Trace
  {
    if t.ended then t else
      var u := t.(last := t.last + 1, attempts := t.attempts + 1);
      if t.closed then u.(dropped := u.dropped + 1, failures := u.failures + 1)
      else Retain(u, Event(u.last, elapsed, kind))
  }

  function Max(a: int, b: int): int
  {
    if a >= b then a else b
  }

  function EndStep(t: Trace, verdict: string, error: string, elapsed: int): Trace
  {
    if t.ended then t else
      var run := RunRecord(verdict, error, Max(t.attempts - t.dropped, 0), t.dropped);
      EmitStep(t, RunEnd(run), elapsed).(ended := true)
  }

  class MemorySink {
    const capacity: int
    var events: seq<Event>
    var closed: bool
    var dropped: int

    constructor (capacity: int)
      ensures this.capacity == capacity && events == [] && !closed && dropped == 0
    {
      this.capacity := capacity;
      events, closed, dropped := [], false, 0;
    }

    method Emit(e: Event) returns (ok: bool)
      modifies this
      ensures closed == old(closed) && ok == !closed
      ensures closed ==> events == old(events) && dropped == old(dropped) + 1
      ensures !closed ==> |events| + dropped == |old(events)| + old(dropped) + 1
      ensures !closed && events != [] ==> events[|events| - 1] == e
      ensures !closed ==> forall t: Trace :: t.capacity == capacity && t.events == old(events) && t.dropped == old(dropped) ==>
        events == Retain(t, e).events && dropped == Retain(t, e).dropped
    {
      if closed {
        dropped := dropped + 1;
        return false;
      }
      events := events + [e];
      ok := true;
      if capacity <= 0 {
        return;
      }
      var room := capacity;
      if !e.kind.RunEnd? {
        room := room - 1;
      }
      var overflow := |events| - room;
      if overflow > 0 {
        events := events[overflow..];
        dropped := dropped + overflow;
      }
    }

    method Close()
      modifies this`closed
      ensures closed
    {
      closed := true;
    }
  }

  class Recorder {
    const sink: MemorySink
    var last: int
    var attempts: int
    var failures: int
    var ended: bool

    function View(): Trace
      reads this, sink
    {
      Trace(sink.capacity, sink.events, sink.closed, sink.dropped, last, attempts, failures, ended)
    }

    constructor (capacity: int)
      ensures View() == Started(capacity) && fresh(sink)
    {
      sink := new MemorySink(capacity);
      last, attempts, failures, ended := 0, 0, 0, false;
      new;
      EmitLocked(RunStart(SCHEMA_V1), 0);
    }

    method EmitLocked(kind: Kind, elapsed: int)
      modifies this`last, this`attempts, this`failures, sink
      ensures View() == EmitStep(old(View()), kind, elapsed)
    {
      if ended {
        return;
      }
      ghost var before := View();
      last := last + 1;
      attempts := attempts + 1;
      ghost var counted := View();
      var ok := sink.Emit(Event(last, elapsed, kind));
      assert !sink.closed ==> sink.events == Retain(counted, Event(last, elapsed, kind)).events;
      if !ok {
        failures := failures + 1;
      }
    }

    method Finish(verdict: string, error: string, elapsed: int)
      modifies this, sink
      ensures View() == EndStep(old(View()), verdict, error, elapsed)
    {
      if ended {
        return;
      }
      var dropped := sink.dropped;
      var emitted := Max(attempts - dropped, 0);
      EmitLocked(RunEnd(RunRecord(verdict, error, emitted, dropped)), elapsed);
      ended := true;
    }
  }

  function Started(capacity: int): Trace
  {
    EmitStep(Trace(capacity, [], false, 0, 0, 0, 0, false), RunStart(SCHEMA_V1), 0)
  }

  // ---- the reader

  datatype Summary = Summary(events: int, first: int, last: int, missing: int, hasRunEnd: bool, dropped: int,
                             verdict: string, error: string)

  predicate ValidPrepare(p: PrepareRecord)
  {
    && p.phase in PREPARE_PHASES
    && (p.state == "started" || p.state == "finished")
    && (p.state == "started" ==> p.result == "" && p.duration.None?)
    && (p.state == "finished" ==> p.duration.Some? && p.duration.value >= 0 && p.result in {"succeeded", "failed", "skipped"})
  }

  predicate ValidEvent(e: Event)
  {
    e.number > 0 && e.elapsed >= 0 &&
    match e.kind
    case RunStart(schema) => schema == SCHEMA_V1
    case Prepare(p) => ValidPrepare(p)
    case Route(granularity) => granularity == "block" || granularity == "file"
    case RunEnd(run) => run.emitted >= 0 && run.dropped >= 0
    case Malformed(_) => false
    case _ => true
  }

  /** One more event on top of a summary; None is a refusal. */
  function Include(s: Summary, e: Event): Option<Summary>
  {
    if !ValidEvent(e) || (s.last != 0 && e.number <= s.last) || (e.kind.RunEnd? && s.hasRunEnd) then None else
      var missing := s.missing + e.number - s.last - 1;
      var t := s.(events := s.events + 1, first := if s.last == 0 then e.number else s.first, last := e.number, missing := missing);
      Some(if e.kind.RunEnd?
           then t.(hasRunEnd := true, dropped := e.kind.run.dropped, verdict := e.kind.run.verdict, error := e.kind.run.error)
           else t)
  }

  const BLANK := Summary(0, 0, 0, 0, false, 0, "", "")

  function Summarised(events: seq<Event>): Option<Summary>
  {
    if events == [] then Some(BLANK) else
      var before := Summarised(events[..|events| - 1]);
      if before.None? then None else Include(before.value, events[|events| - 1])
  }

  function TypeOf(k: Kind): string
  {
    match k
    case RunStart(_) => "run-start"
    case PhaseStart(_) => "phase-start"
    case PhaseEnd(_, _) => "phase-end"
    case Prepare(_) => "prepare"
    case Exec => "exec"
    case MutantExec => "mutant-exec"
    case Route(_) => "route"
    case ProbeExec => "probe-exec"
    case Progress => "progress"
    case Artifact => "artifact"
    case RunEnd(_) => "run-end"
    case Malformed(name) => name
  }

  /** How many events have the type, and how long the phase, or the preparation, took in all. */
  function Occurrences(events: seq<Event>, name: string): nat
  {
    if events == [] then 0 else
      Occurrences(events[..|events| - 1], name) + (if TypeOf(events[|events| - 1].kind) == name then 1 else 0)
  }

  function PhaseTime(events: seq<Event>, phase: string): int
  {
    if events == [] then 0 else
      var e := events[|events| - 1];
      PhaseTime(events[..|events| - 1], phase) + (if e.kind.PhaseEnd? && e.kind.phase == phase then e.kind.ms else 0)
  }

  /** The time of a finished step of this phase. */
  function Finished(kind: Kind, phase: string): int
  {
    if kind.Prepare? && kind.prepare.phase == phase && kind.prepare.state == "finished" && kind.prepare.duration.Some?
    then kind.prepare.duration.value else 0
  }

  function PrepareTime(events: seq<Event>, phase: string): int
  {
    if events == [] then 0 else
      PrepareTime(events[..|events| - 1], phase) + Finished(events[|events| - 1].kind, phase)
  }

  /** The times of a stream are those of its events, added up: of the ends of the phase, and of the
      finished steps of the preparation. */
  lemma {:induction false} TimesAddUp(a: seq<Event>, b: seq<Event>, e: Event, phase: string)
    ensures PhaseTime(a + b, phase) == PhaseTime(a, phase) + PhaseTime(b, phase)
    ensures PrepareTime(a + b, phase) == PrepareTime(a, phase) + PrepareTime(b, phase)
    ensures PhaseTime([e], phase) == match e.kind case PhaseEnd(ended, ms) => if ended == phase then ms else 0 case _ => 0
    ensures ValidEvent(e) && e.kind.Prepare? ==>
      var p := e.kind.prepare;
      PrepareTime([e], phase) == if p.phase == phase && p.state == "finished" then p.duration.value else 0
    ensures !e.kind.Prepare? ==> PrepareTime([e], phase) == 0
    decreases |b|
  {
    assert [e][..0] == [] && PhaseTime([], phase) == PrepareTime([], phase) == 0;
    if b == [] {
      assert a + b == a;
    } else {
      assert (a + b)[..|a + b| - 1] == a + b[..|b| - 1];
      TimesAddUp(a, b[..|b| - 1], e, phase);
    }
  }

  function At(m: map<string, int>, k: string): int
  {
    if k in m then m[k] else 0
  }

  /** What the reader accepts: valid events, numbered upwards, with at most one end of the run. */
  ghost predicate Acceptable(events: seq<Event>)
  {
    && (forall i :: 0 <= i < |events| ==> ValidEvent(events[i]))
    && (forall i, j :: 0 <= i < j < |events| ==> events[i].number < events[j].number)
    && (forall i, j :: 0 <= i < j < |events| ==> !(events[i].kind.RunEnd? && events[j].kind.RunEnd?))
  }

  lemma AcceptableStep(events: seq<Event>)
    requires events != []
    ensures
      var front, e := events[..|events| - 1], events[|events| - 1];
      Acceptable(events) <==>
        && Acceptable(front) && ValidEvent(e) && (front != [] ==> front[|front| - 1].number < e.number)
        && (e.kind.RunEnd? ==> forall i :: 0 <= i < |front| ==> !front[i].kind.RunEnd?)
  {
    var front, e := events[..|events| - 1], events[|events| - 1];
    assert forall i :: 0 <= i < |front| ==> front[i] == events[i];
    if Acceptable(front) && ValidEvent(e) && (front != [] ==> front[|front| - 1].number < e.number) {
      forall i | 0 <= i < |front| ensures events[i].number < e.number {
        if i < |front| - 1 {
          assert front[i].number < front[|front| - 1].number;
        }
      }
    }
  }

  /** The summary of any stream: it is refused exactly when it is not acceptable; the missing numbers are all
      those up to the last that no event bears; and the end is that of its one end of run. */
  lemma {:induction false} SummaryIsExact(events: seq<Event>)
    ensures Summarised(events).Some? <==> Acceptable(events)
    ensures Summarised(events).Some? ==>
      var s := Summarised(events).value;
      && s.events == |events| && s.missing == s.last - |events|
      && (events == [] ==> s.first == 0 && s.last == 0)
      && (events != [] ==> s.first == events[0].number && s.last == events[|events| - 1].number)
      && (s.hasRunEnd <==> exists i :: 0 <= i < |events| && events[i].kind.RunEnd?)
      && (forall i :: 0 <= i < |events| && events[i].kind.RunEnd? ==>
           var run := events[i].kind.run; s.dropped == run.dropped && s.verdict == run.verdict && s.error == run.error)
  {
    if events == [] {
      assert Acceptable(events);
    } else {
      hide ValidEvent;
      var front := events[..|events| - 1];
      SummaryIsExact(front);
      AcceptableStep(events);
      assert forall i :: 0 <= i < |front| ==> front[i] == events[i];
      LastIsPositive(front);
      if Acceptable(events) && events[|events| - 1].kind.RunEnd? {
        assert events[|events| - 1].kind.RunEnd?;
      }
      if i :| 0 <= i < |front| && front[i].kind.RunEnd? {
        assert events[i].kind.RunEnd?;
      }
    }
  }

  lemma LastIsPositive(events: seq<Event>)
    ensures Acceptable(events) && events != [] ==> events[|events| - 1].number > 0
  {
  }

  lemma {:induction false} RefusedEarly(events: seq<Event>, n: nat)
    requires n <= |events| && Summarised(events[..n]).None?
    ensures Summarised(events).None?
    decreases |events| - n
  {
    if n < |events| {
      assert events[..n + 1][..n] == events[..n];
      RefusedEarly(events, n + 1);
    } else {
      assert events[..n] == events;
    }
  }

  /** Count one event and its time. */
  method Tally(e: Event, counts: map<string, int>, phases: map<string, int>, prepares: map<string, int>)
    returns (counted: map<string, int>, timed: map<string, int>, prepared: map<string, int>)
    requires ValidEvent(e)
    ensures forall name :: At(counted, name) == At(counts, name) + (if TypeOf(e.kind) == name then 1 else 0)
    ensures forall phase :: At(timed, phase) == At(phases, phase) + (if e.kind.PhaseEnd? && e.kind.phase == phase then e.kind.ms else 0)
    ensures forall phase :: At(prepared, phase) == At(prepares, phase) + Finished(e.kind, phase)
  {
    counted, timed, prepared := counts[TypeOf(e.kind) := At(counts, TypeOf(e.kind)) + 1], phases, prepares;
    if e.kind.PhaseEnd? {
      timed := phases[e.kind.phase := At(phases, e.kind.phase) + e.kind.ms];
    }
    if e.kind.Prepare? && e.kind.prepare.state == "finished" {
      var p := e.kind.prepare;
      prepared := prepares[p.phase := At(prepares, p.phase) + p.duration.value];
    }
  }

  /** A count is the number of places at which an event of the type stands. */
  lemma {:induction false} OccurrencesCount(events: seq<Event>, name: string)
    ensures Occurrences(events, name) == |set i | 0 <= i < |events| && TypeOf(events[i].kind) == name|
  {
    hide TypeOf;
    var all := set i | 0 <= i < |events| && TypeOf(events[i].kind) == name;
    if events == [] {
      assert all == {};
    } else {
      var n, front := |events| - 1, events[..|events| - 1];
      OccurrencesCount(front, name);
      var before := set i | 0 <= i < n && TypeOf(front[i].kind) == name;
      forall i ensures i in all <==> i in before || (i == n && TypeOf(events[n].kind) == name) {
        assert 0 <= i < n ==> front[i] == events[i];
      }
      assert all == before + (if TypeOf(events[n].kind) == name then {n} else {});
    }
  }

  method ReadSummary(events: seq<Event>)
    returns (result: Option<Summary>, counts: map<string, int>, phases: map<string, int>, prepares: map<string, int>)
    ensures result == Summarised(events)
    ensures result.Some? ==> forall name :: At(counts, name) == Occurrences(events, name)
    ensures result.Some? ==> forall phase :: At(phases, phase) == PhaseTime(events, phase)
    ensures result.Some? ==> forall phase :: At(prepares, phase) == PrepareTime(events, phase)
  {
    hide ValidPrepare, TypeOf, Finished;
    var s := BLANK;
    var previous := 0;
    counts, phases, prepares := map[], map[], map[];
    for i := 0 to |events|
      invariant Summarised(events[..i]) == Some(s) && previous == s.last
      invariant forall name :: At(counts, name) == Occurrences(events[..i], name)
      invariant forall phase :: At(phases, phase) == PhaseTime(events[..i], phase)
      invariant forall phase :: At(prepares, phase) == PrepareTime(events[..i], phase)
    {
      var e := events[i];
      assert events[..i + 1][..i] == events[..i];
      if !ValidEvent(e) || (previous != 0 && e.number <= previous) || (e.kind.RunEnd? && s.hasRunEnd) {
        RefusedEarly(events, i + 1);
        return None, counts, phases, prepares;
      }
      if previous != 0 {
        s := s.(missing := s.missing + e.number - previous - 1);
      } else {
        s := s.(first := e.number, missing := if e.number > 1 then s.missing + e.number - 1 else s.missing);
      }
      previous := e.number;
      s := s.(last := e.number, events := s.events + 1);
      counts, phases, prepares := Tally(e, counts, phases, prepares);
      if e.kind.RunEnd? {
        s := s.(hasRunEnd := true, dropped := e.kind.run.dropped, verdict := e.kind.run.verdict, error := e.kind.run.error);
      }
    }
    assert events[..|events|] == events;
    result := Some(s);
  }

  // ---- runs of the writer

  datatype Op = Emit(kind: Kind, elapsed: int) | End(verdict: string, error: string, elapsed: int) | Close

  /** The recorder's own methods never emit the marks of the run's start and end. */
  predicate Ordinary(op: Op)
  {
    op.Emit? ==> !op.kind.RunStart? && !op.kind.RunEnd?
  }

  function Apply(t: Trace, op: Op): Trace
  {
    match op
    case Emit(kind, elapsed) => EmitStep(t, kind, elapsed)
    case End(verdict, error, elapsed) => EndStep(t, verdict, error, elapsed)
    case Close => t.(closed := true)
  }

  function After(capacity: int, ops: seq<Op>): Trace
  {
    if ops == [] then Started(capacity) else Apply(After(capacity, ops[..|ops| - 1]), ops[|ops| - 1])
  }

  /** The events are numbered one after the other, up to this number. */
  ghost predicate Consecutive(events: seq<Event>, last: int)
  {
    forall i :: 0 <= i < |events| ==> events[i].number == last - |events| + 1 + i
  }

  ghost predicate NoEndBefore(events: seq<Event>, n: int)
  {
    forall i :: 0 <= i < |events| && i < n ==> !events[i].kind.RunEnd?
  }

  /** What holds between any two steps: nothing is lost from the middle, and what is lost is counted. */
  ghost predicate Kept(t: Trace)
  {
    && t.attempts == t.last >= 1 && 0 <= t.dropped && |t.events| + t.dropped == t.last
    && (t.events != [] ==> Consecutive(t.events, t.events[|t.events| - 1].number) && t.events[0].number >= 1)
    && (t.events != [] && !t.closed ==> t.events[|t.events| - 1].number == t.last)
    && (t.capacity > 0 && !t.ended ==> |t.events| < t.capacity)
    && NoEndBefore(t.events, |t.events| - 1)
    && (!EndNoted(t) ==> NoEndBefore(t.events, |t.events|))
    && (t.ended && !t.closed ==> EndNoted(t))
  }

  /** The run's end is on record, with the right counts. */
  ghost predicate EndNoted(t: Trace)
  {
    && t.ended && t.events != [] && t.events[|t.events| - 1].kind.RunEnd?
    && var run := t.events[|t.events| - 1].kind.run;
       run.dropped == t.dropped && run.emitted == |t.events| - 1 && t.events[|t.events| - 1].number == t.last
  }

  lemma StepKeeps(t: Trace, op: Op)
    requires Kept(t) && Ordinary(op)
    ensures Kept(Apply(t, op))
    ensures EndNoted(Apply(t, op)) <==> EndNoted(t) || (op.End? && !t.ended && !t.closed)
    ensures Apply(t, op).ended == (t.ended || op.End?) && Apply(t, op).closed == (t.closed || op.Close?)
  {
    match op
    case Emit(kind, elapsed) => EmitKeeps(t, kind, elapsed);
    case End(verdict, error, elapsed) => EndKeeps(t, verdict, error, elapsed);
    case Close =>
  }

  lemma EmitKeeps(t: Trace, kind: Kind, elapsed: int)
    requires Kept(t) && !kind.RunEnd?
    ensures
      var u := EmitStep(t, kind, elapsed);
      Kept(u) && (EndNoted(u) <==> EndNoted(t)) && u.ended == t.ended && u.closed == t.closed
  {
  }

  lemma EndKeeps(t: Trace, verdict: string, error: string, elapsed: int)
    requires Kept(t)
    ensures
      var u := EndStep(t, verdict, error, elapsed);
      Kept(u) && (EndNoted(u) <==> EndNoted(t) || (!t.ended && !t.closed)) && u.ended && u.closed == t.closed
  {
  }

  predicate Ends(ops: seq<Op>)
  {
    exists i :: 0 <= i < |ops| && ops[i].End?
  }

  predicate Closes(ops: seq<Op>)
  {
    exists i :: 0 <= i < |ops| && ops[i].Close?
  }

  /** The run ends while its sink is open. */
  predicate EndsOpen(ops: seq<Op>)
  {
    exists i :: 0 <= i < |ops| && ops[i].End? && !Closes(ops[..i])
  }

  lemma EndsOpenStep(ops: seq<Op>, op: Op)
    ensures Ends(ops + [op]) <==> Ends(ops) || op.End?
    ensures Closes(ops + [op]) <==> Closes(ops) || op.Close?
    ensures EndsOpen(ops + [op]) <==> EndsOpen(ops) || (op.End? && !Closes(ops))
  {
    var all := ops + [op];
    assert all[|ops|] == op && all[..|ops|] == ops;
    forall i | 0 <= i < |ops| ensures all[i] == ops[i] && all[..i] == ops[..i] {
    }
    if Ends(ops) {
      var i :| 0 <= i < |ops| && ops[i].End?;
      assert all[i].End?;
    }
    if Closes(ops) {
      var i :| 0 <= i < |ops| && ops[i].Close?;
      assert all[i].Close?;
    }
    if EndsOpen(ops) {
      var i :| 0 <= i < |ops| && ops[i].End? && !Closes(ops[..i]);
      assert all[i].End? && !Closes(all[..i]);
    }
  }

  lemma {:induction false} RunKeeps(capacity: int, ops: seq<Op>)
    requires forall op :: op in ops ==> Ordinary(op)
    ensures Kept(After(capacity, ops))
    ensures After(capacity, ops).ended == Ends(ops) && After(capacity, ops).closed == Closes(ops)
    ensures EndNoted(After(capacity, ops)) ==> EndsOpen(ops)
    ensures EndsOpen(ops) ==> EndNoted(After(capacity, ops))
  {
    hide Kept, EndNoted, EndsOpen, Ends, Closes, Apply;
    if ops == [] {
      StartedKept(capacity);
    } else {
      var front, op := ops[..|ops| - 1], ops[|ops| - 1];
      assert ops == front + [op];
      RunKeeps(capacity, front);
      StepKeeps(After(capacity, front), op);
      EndsOpenStep(front, op);
      EndsFirst(front);
    }
  }

  /** The first end of the run, with what it says. */
  ghost predicate FirstEnd(ops: seq<Op>, verdict: string, error: string)
  {
    exists i :: 0 <= i < |ops| && ops[i].End? && ops[i].verdict == verdict && ops[i].error == error &&
                forall j :: 0 <= j < i ==> !ops[j].End?
  }

  lemma FirstEndStep(ops: seq<Op>, op: Op, verdict: string, error: string)
    ensures FirstEnd(ops, verdict, error) ==> FirstEnd(ops + [op], verdict, error)
    ensures !Ends(ops) && op.End? ==> FirstEnd(ops + [op], op.verdict, op.error)
  {
    var all := ops + [op];
    assert all[|ops|] == op;
    if FirstEnd(ops, verdict, error) {
      var i :| 0 <= i < |ops| && ops[i].End? && ops[i].verdict == verdict && ops[i].error == error &&
               forall j :: 0 <= j < i ==> !ops[j].End?;
      assert all[i] == ops[i] && forall j :: 0 <= j < i ==> all[j] == ops[j];
    }
    if !Ends(ops) {
      forall j | 0 <= j < |ops| ensures !all[j].End? {
        assert all[j] == ops[j];
      }
    }
  }

  /** The end on record is the first one, with its verdict and its error. */
  lemma {:induction false} EndIsFirst(capacity: int, ops: seq<Op>)
    requires forall op :: op in ops ==> Ordinary(op)
    ensures
      var t := After(capacity, ops);
      EndNoted(t) ==> var run := t.events[|t.events| - 1].kind.run; FirstEnd(ops, run.verdict, run.error)
  {
    hide FirstEnd, Kept, Apply, Started, Ends, Closes, EndsOpen;
    RunKeeps(capacity, ops);
    StartedKept(capacity);
    if ops != [] {
      var front, op := ops[..|ops| - 1], ops[|ops| - 1];
      assert ops == front + [op];
      EndIsFirst(capacity, front);
      RunKeeps(capacity, front);
      var t, u := After(capacity, front), After(capacity, ops);
      if EndNoted(t) {
        var run := t.events[|t.events| - 1].kind.run;
        EndedStays(t, op);
        FirstEndStep(front, op, run.verdict, run.error);
      } else if EndNoted(u) {
        StepNotes(t, op);
        FirstEndStep(front, op, "", "");
      }
    }
  }

  lemma EndedStays(t: Trace, op: Op)
    requires t.ended
    ensures Apply(t, op).events == t.events
  {
  }

  lemma StepNotes(t: Trace, op: Op)
    requires Kept(t) && Ordinary(op) && !EndNoted(t) && EndNoted(Apply(t, op))
    ensures op.End? && !t.ended
    ensures var u := Apply(t, op); var run := u.events[|u.events| - 1].kind.run; run.verdict == op.verdict && run.error == op.error
  {
  }

  // ---- nothing is dropped that could be kept

  function Min(a: int, b: int): int
  {
    if a <= b then a else b
  }

  /** An open ring holds as many events as it has room for, with one place for the end of the run. */
  ghost predicate Filled(t: Trace)
  {
    !t.closed ==>
      && (t.capacity <= 0 ==> t.dropped == 0)
      && (t.capacity > 0 && !t.ended ==> |t.events| == Min(t.last, t.capacity - 1))
      && (t.capacity > 0 && t.ended ==> |t.events| == Min(t.last - 1, t.capacity - 1) + 1)
  }

  lemma StepFills(t: Trace, op: Op)
    requires Kept(t) && Filled(t) && Ordinary(op)
    ensures Filled(Apply(t, op))
  {
  }

  /** Over any run the ring drops only what does not fit. */
  lemma {:induction false} RunFills(capacity: int, ops: seq<Op>)
    requires forall op :: op in ops ==> Ordinary(op)
    ensures Filled(After(capacity, ops))
  {
    if ops != [] {
      var front := ops[..|ops| - 1];
      RunFills(capacity, front);
      RunKeeps(capacity, front);
      hide Filled, Kept, Apply;
      StepFills(After(capacity, front), ops[|ops| - 1]);
    }
  }

  /** What the run emits while it goes on with an open sink, in order. */
  ghost function Said(ops: seq<Op>): (said: seq<(Kind, int)>)
    ensures said != []
  {
    if ops == [] then [(RunStart(SCHEMA_V1), 0)] else
      var front, op := ops[..|ops| - 1], ops[|ops| - 1];
      Said(front) + (if op.Emit? && !Ends(front) && !Closes(front) then [(op.kind, op.elapsed)] else [])
  }

  ghost predicate Echoes(t: Trace, said: seq<(Kind, int)>)
  {
    && (!t.closed && !t.ended ==> t.last == |said|)
    && (forall e :: e in t.events && !e.kind.RunEnd? ==> 1 <= e.number <= |said| && (e.kind, e.elapsed) == said[e.number - 1])
  }

  /** A step adds at most the event it emits. */
  lemma EmitMembers(t: Trace, kind: Kind, elapsed: int)
    ensures forall e :: e in EmitStep(t, kind, elapsed).events ==>
      e in t.events || (!t.ended && !t.closed && e == Event(t.last + 1, elapsed, kind))
  {
    var u := t.(last := t.last + 1, attempts := t.attempts + 1);
    var e := Event(u.last, elapsed, kind);
    forall x | x in Retain(u, e).events ensures x in t.events || x == e {
      var all := t.events + [e];
      assert x in all;
    }
  }

  lemma StepEchoes(t: Trace, op: Op, said: seq<(Kind, int)>)
    requires Kept(t) && Ordinary(op) && Echoes(t, said)
    ensures Echoes(Apply(t, op), if op.Emit? && !t.ended && !t.closed then said + [(op.kind, op.elapsed)] else said)
  {
    EmitCounts(t, op);
    match op
    case Emit(kind, elapsed) =>
      EmitMembers(t, kind, elapsed);
      hide EmitStep, Kept;
    case End(verdict, error, elapsed) =>
      EmitMembers(t, RunEnd(RunRecord(verdict, error, Max(t.attempts - t.dropped, 0), t.dropped)), elapsed);
      hide EmitStep, Kept;
    case Close =>
  }

  lemma EmitCounts(t: Trace, op: Op)
    requires Kept(t) && Ordinary(op)
    ensures op.Emit? && !t.ended && !t.closed ==> Apply(t, op).last == t.last + 1
    ensures op.Emit? ==> Apply(t, op).ended == t.ended && Apply(t, op).closed == t.closed
    ensures op.End? ==> Apply(t, op).ended
    ensures t.ended || t.closed ==> Apply(t, op).ended || Apply(t, op).closed
  {
  }

  /** Over any run the retained events are what was emitted under their numbers. */
  lemma {:induction false} RunEchoes(capacity: int, ops: seq<Op>)
    requires forall op :: op in ops ==> Ordinary(op)
    ensures Echoes(After(capacity, ops), Said(ops))
  {
    if ops == [] {
      assert After(capacity, ops) == Started(capacity);
    } else {
      var front, op := ops[..|ops| - 1], ops[|ops| - 1];
      RunEchoes(capacity, front);
      RunKeeps(capacity, front);
      hide Echoes, Kept, Apply, Ends, Closes;
      StepEchoes(After(capacity, front), op, Said(front));
      assert Said(front) + [] == Said(front);
    }
  }

  lemma StartedKept(capacity: int)
    ensures Kept(Started(capacity)) && !EndNoted(Started(capacity)) && !Started(capacity).ended && !Started(capacity).closed
    ensures !Ends([]) && !Closes([]) && !EndsOpen([])
  {
  }

  /** An earlier end, with the sink still open, was noted. */
  lemma EndsFirst(ops: seq<Op>)
    ensures Ends(ops) && !Closes(ops) ==> EndsOpen(ops)
  {
    if Ends(ops) && !Closes(ops) {
      var i :| 0 <= i < |ops| && ops[i].End?;
      forall j | 0 <= j < i ensures !ops[..i][j].Close? {
        assert !ops[j].Close?;
      }
    }
  }

  /** The reader's view of a consecutive stream with the run's end, if any, at its end. */
  lemma {:induction false} ConsecutiveSummary(events: seq<Event>)
    requires events != [] && Consecutive(events, events[|events| - 1].number) && events[0].number >= 1
    requires NoEndBefore(events, |events| - 1)
    requires forall i :: 0 <= i < |events| ==> ValidEvent(events[i])
    ensures Summarised(events).Some?
    ensures
      var s, last := Summarised(events).value, events[|events| - 1];
      && s.events == |events| && s.first == events[0].number && s.last == last.number && s.missing == s.first - 1
      && s.hasRunEnd == last.kind.RunEnd? && (s.hasRunEnd ==> s.dropped == last.kind.run.dropped)
      && (s.hasRunEnd ==> s.verdict == last.kind.run.verdict && s.error == last.kind.run.error)
  {
    var front := events[..|events| - 1];
    if front == [] {
      assert Summarised(front) == Some(BLANK);
    } else {
      ConsecutiveSummary(front);
    }
  }

  ghost predicate Readable(events: seq<Event>)
  {
    forall i :: 0 <= i < |events| ==> ValidEvent(events[i])
  }

  lemma InvalidRefused(events: seq<Event>, i: nat)
    requires i < |events| && !ValidEvent(events[i])
    ensures Summarised(events).None?
  {
    assert events[..i + 1][..i] == events[..i];
    RefusedEarly(events, i + 1);
  }

  /** Whatever the run emits and whatever the capacity, the retained events are consecutive, and the
      reader accepts them exactly when each is valid: no clock or duration ran backwards.  It finds the
      end of the run exactly when that came while the sink was open, which leaves something to read
      even in a ring of one; then it returns the verdict and the error of that end, the first one, and the
      losses it counts are those the run reports. */
  lemma ReaderAgrees(capacity: int, ops: seq<Op>)
    requires forall op :: op in ops ==> Ordinary(op)
    ensures
      var t := After(capacity, ops);
      && (EndsOpen(ops) ==> t.events != [])
      && (t.events != [] ==> Consecutive(t.events, t.events[|t.events| - 1].number))
      && (Summarised(t.events).Some? <==> Readable(t.events))
      && (Readable(t.events) ==>
           var s := Summarised(t.events).value;
           && s.events == |t.events|
           && (s.hasRunEnd <==> EndsOpen(ops))
           && (t.events != [] && (!t.closed || s.hasRunEnd) ==> s.missing == t.dropped && s.last == t.last)
           && (s.hasRunEnd ==> EndNoted(t) && FirstEnd(ops, s.verdict, s.error))
           && (s.hasRunEnd ==> s.dropped == s.missing && s.events == t.events[|t.events| - 1].kind.run.emitted + 1))
  {
    var t := After(capacity, ops);
    RunKeeps(capacity, ops);
    EndIsFirst(capacity, ops);
    hide FirstEnd;
    if t.events == [] {
      assert !EndNoted(t);
    } else if Readable(t.events) {
      ConsecutiveSummary(t.events);
    } else {
      var i :| 0 <= i < |t.events| && !ValidEvent(t.events[i]);
      InvalidRefused(t.events, i);
    }
  }
}
