/** The stored checkpoint: a base file replaced by rename, and an append-only journal whose lines
    name the base they extend (internal/cache/checkpoint.go). */
module Journal {
  import opened Wrappers
  import opened Ordering
  import opened Checkpoint

  const JOURNAL_SCHEMA := "assurance-checkpoint-journal-v1"

  datatype Unit =
    | TargetUnit(target: Keyed<TargetBody>)
    | SuiteUnit(suite: Keyed<SuiteBody>)
    | ResultUnit(result: Keyed<ResultBody>)

  datatype JournalRecord = JournalRecord(schema: string, inputDigest: string, baseDigest: string,
                                         target: Option<Keyed<TargetBody>>, suite: Option<Keyed<SuiteBody>>,
                                         result: Option<Keyed<ResultBody>>, checksum: string)

  /** The library encoders and the hash, as functions on text. */
  datatype Codec = Codec(encodeState: State -> string, decodeState: string -> Option<State>,
                         encodeRecord: JournalRecord -> string, decodeRecord: string -> Option<JournalRecord>,
                         hash: string -> string)

  ghost predicate LineFree(text: string)
  {
    '\n' !in text
  }

  /** What is assumed of them: encoding loses nothing, a record is one line, digests do not collide. */
  ghost predicate Lawful(k: Codec)
  {
    && (forall s {:trigger k.encodeState(s)} :: k.decodeState(k.encodeState(s)) == Some(s))
    && (forall r {:trigger k.encodeRecord(r)} ::
          k.decodeRecord(k.encodeRecord(r)) == Some(r) && LineFree(k.encodeRecord(r)))
    && (forall a, b {:trigger k.hash(a), k.hash(b)} :: k.hash(a) == k.hash(b) ==> a == b)
    && (forall a {:trigger k.hash(a)} :: k.hash(a) != "")
  }

  function BaseText(k: Codec, state: State): string
  {
    k.encodeState(Canonical(state))
  }

  function Checksum(k: Codec, r: JournalRecord): string
  {
    k.hash(k.encodeRecord(r.(checksum := "")))
  }

  function RecordOf(k: Codec, id: string, baseDigest: string, unit: Unit): JournalRecord
  {
    var r := JournalRecord(JOURNAL_SCHEMA, id, baseDigest,
                           if unit.TargetUnit? then Some(unit.target) else None,
                           if unit.SuiteUnit? then Some(unit.suite) else None,
                           if unit.ResultUnit? then Some(unit.result) else None, "");
    r.(checksum := Checksum(k, r))
  }

  function Line(k: Codec, id: string, baseDigest: string, unit: Unit): string
  {
    k.encodeRecord(RecordOf(k, id, baseDigest, unit))
  }

  // ---- Text: lines, complete and torn ----

  function FirstNewline(data: string): (i: int)
    ensures -1 <= i < |data|
    ensures i >= 0 ==> data[i] == '\n' && LineFree(data[..i])
    ensures i < 0 ==> LineFree(data)
  {
    if data == [] then -1
    else if data[0] == '\n' then 0
    else var i := FirstNewline(data[1..]); if i < 0 then -1 else i + 1
  }

  function LastNewline(data: string): (i: int)
    ensures -1 <= i < |data|
    ensures i >= 0 ==> data[i] == '\n' && LineFree(data[i + 1..])
    ensures i < 0 ==> LineFree(data)
  {
    if data == [] then -1
    else if data[|data| - 1] == '\n' then |data| - 1
    else LastNewline(data[..|data| - 1])
  }

  function Split(data: string): seq<string>
    decreases |data|
  {
    var i := FirstNewline(data);
    if i < 0 then [data] else [data[..i]] + Split(data[i + 1..])
  }

  function Joined(lines: seq<string>): string
    requires lines != []
  {
    if |lines| == 1 then lines[0] else lines[0] + "\n" + Joined(lines[1..])
  }

  /** Complete lines, each ended by a newline, then what a torn write left behind. */
  function JournalText(lines: seq<string>, tail: string): string
  {
    if lines == [] then tail else Joined(lines) + "\n" + tail
  }

  ghost predicate Plain(lines: seq<string>)
  {
    forall l :: l in lines ==> LineFree(l)
  }

  lemma {:induction false} FirstNewlineAt(a: string, b: string)
    requires LineFree(a)
    ensures FirstNewline(a + "\n" + b) == |a|
  {
    if a != [] {
      assert a[0] in a;
      assert (a + "\n" + b)[1..] == a[1..] + "\n" + b;
      FirstNewlineAt(a[1..], b);
    }
  }

  lemma {:induction false} LastNewlineAt(a: string, b: string)
    requires LineFree(b)
    ensures LastNewline(a + "\n" + b) == |a|
  {
    var data := a + "\n" + b;
    if b != [] {
      assert b[|b| - 1] in b;
      assert data[..|data| - 1] == a + "\n" + b[..|b| - 1];
      LastNewlineAt(a, b[..|b| - 1]);
    }
  }

  lemma {:induction false} SplitJoined(lines: seq<string>)
    requires lines != [] && Plain(lines)
    ensures Split(Joined(lines)) == lines
  {
    assert lines[0] in lines;
    if |lines| == 1 {
      assert FirstNewline(lines[0]) < 0;
    } else {
      FirstNewlineAt(lines[0], Joined(lines[1..]));
      var data := Joined(lines);
      assert data[..|lines[0]|] == lines[0];
      assert data[|lines[0]| + 1..] == Joined(lines[1..]);
      SplitJoined(lines[1..]);
    }
  }

  lemma {:induction false} JoinedAppend(lines: seq<string>, l: string)
    requires lines != []
    ensures Joined(lines + [l]) == Joined(lines) + "\n" + l
  {
    assert (lines + [l])[0] == lines[0];
    if |lines| == 1 {
      assert (lines + [l])[1..] == [l];
    } else {
      assert (lines + [l])[1..] == lines[1..] + [l];
      JoinedAppend(lines[1..], l);
    }
  }

  /** Writing a whole line after complete lines makes one more complete line. */
  lemma JournalTextAppend(lines: seq<string>, l: string)
    ensures JournalText(lines, "") + l + "\n" == JournalText(lines + [l], "")
  {
    if lines == [] {
      assert Joined([l]) == l;
    } else {
      JoinedAppend(lines, l);
    }
  }

  // ---- Recovery ----

  function ApplyUnit(state: State, unit: Unit): State
  {
    match unit
    case TargetUnit(t) => state.(baseline := state.baseline.(targets := state.baseline.targets + [t]))
    case SuiteUnit(s) => state.(baseline := state.baseline.(suites := state.baseline.suites + [s]))
    case ResultUnit(r) =>
      if state.mutation.None? then state
      else state.(mutation := Some(state.mutation.value.(results := state.mutation.value.results + [r])))
  }

  /** The identifier is not yet saved, and a mutant has its catalog. */
  ghost predicate Accepts(state: State, unit: Unit)
  {
    match unit
    case TargetUnit(t) => t.id !in Ids(state.baseline.targets)
    case SuiteUnit(s) => s.id !in Ids(state.baseline.suites)
    case ResultUnit(r) => state.mutation.Some? && r.id !in Ids(state.mutation.value.results)
  }

  function UnitCount(r: JournalRecord): nat
  {
    (if r.target.Some? then 1 else 0) + (if r.suite.Some? then 1 else 0) + (if r.result.Some? then 1 else 0)
  }

  function UnitOf(r: JournalRecord): Unit
    requires UnitCount(r) == 1
  {
    if r.target.Some? then TargetUnit(r.target.value)
    else if r.suite.Some? then SuiteUnit(r.suite.value)
    else ResultUnit(r.result.value)
  }

  predicate Authentic(k: Codec, id: string, r: JournalRecord)
  {
    r.schema == JOURNAL_SCHEMA && r.inputDigest == id && r.checksum != "" && r.checksum == Checksum(k, r)
  }

  /** Lines of an older base are skipped until the first line of the current one. */
  ghost function Replay(k: Codec, id: string, baseDigest: string, lines: seq<string>, state: State, seen: bool): Option<State>
  {
    if lines == [] then Some(state)
    else
      var decoded := k.decodeRecord(lines[0]);
      if decoded.None? || !Authentic(k, id, decoded.value) then None
      else
        var r := decoded.value;
        if r.baseDigest != baseDigest then
          if seen then None else Replay(k, id, baseDigest, lines[1..], state, false)
        else if UnitCount(r) != 1 || !Accepts(state, UnitOf(r)) then None
        else Replay(k, id, baseDigest, lines[1..], ApplyUnit(state, UnitOf(r)), true)
  }

  ghost function ApplyJournal(k: Codec, id: string, baseDigest: string, journal: Option<string>, state: State): Option<State>
  {
    if journal.None? || LastNewline(journal.value) < 0 then Some(state)
    else
      var replayed := Replay(k, id, baseDigest, Split(journal.value[..LastNewline(journal.value)]), state, false);
      if replayed.None? || !Valid(Canonical(replayed.value)) then None
      else Some(Canonical(replayed.value))
  }

  datatype Disk = Disk(base: Option<string>, journal: Option<string>)

  datatype Recovery = Absent | Found(state: State) | Corrupt

  ghost function Recover(k: Codec, id: string, disk: Disk): Recovery
  {
    if disk.base.None? then Absent
    else
      var decoded := k.decodeState(disk.base.value);
      if decoded.None? || !Valid(decoded.value) || decoded.value.inputDigest != id then Corrupt
      else
        var applied := ApplyJournal(k, id, k.hash(disk.base.value), disk.journal, decoded.value);
        if applied.None? then Corrupt else Found(applied.value)
  }

  // ---- The steps that reach the disk ----

  function Renamed(disk: Disk, text: string): Disk
  {
    disk.(base := Some(text))
  }

  function JournalRemoved(disk: Disk): Disk
  {
    disk.(journal := None)
  }

  function BaseRemoved(disk: Disk): Disk
  {
    disk.(base := None)
  }

  function Extended(disk: Disk, text: string): Disk
  {
    disk.(journal := Some((if disk.journal.None? then "" else disk.journal.value) + text))
  }

  /** How far an operation got before the system reported a failure. */
  datatype PutReach = BeforeRename | AfterRename | PutComplete

  datatype DeleteReach = BeforeBase | BeforeJournal | DeleteComplete

  class CheckpointStore {
    const codec: Codec
    var base: Option<string>
    var journal: Option<string>
    /** The digest this process remembers for the base file; empty when it remembers none. */
    var baseDigest: string

    constructor (k: Codec, disk: Disk)
      ensures codec == k && View() == disk && baseDigest == ""
    {
      codec, base, journal, baseDigest := k, disk.base, disk.journal, "";
    }

    function View(): Disk
      reads this
    {
      Disk(base, journal)
    }

    method ApplyCheckpointJournal(id: string, digest: string, initial: State) returns (result: Option<State>)
      ensures result == ApplyJournal(codec, id, digest, journal, initial)
    {
      if journal.None? || LastNewline(journal.value) < 0 {
        return Some(initial);
      }
      var state := initial;
      var targetIds, suiteIds := Ids(state.baseline.targets), Ids(state.baseline.suites);
      var resultIds := if state.mutation.Some? then Ids(state.mutation.value.results) else {};
      var lines := Split(journal.value[..LastNewline(journal.value)]);
      var seen := false;
      for index := 0 to |lines|
        invariant targetIds == Ids(state.baseline.targets) && suiteIds == Ids(state.baseline.suites)
        invariant resultIds == if state.mutation.Some? then Ids(state.mutation.value.results) else {}
        invariant Replay(codec, id, digest, lines, initial, false) ==
                  Replay(codec, id, digest, lines[index..], state, seen)
      {
        assert lines[index..][0] == lines[index] && lines[index..][1..] == lines[index + 1..];
        var decoded := codec.decodeRecord(lines[index]);
        if decoded.None? || !Authentic(codec, id, decoded.value) {
          return None;
        }
        var record := decoded.value;
        if record.baseDigest != digest {
          if !seen {
            continue;
          }
          return None;
        }
        seen := true;
        if UnitCount(record) != 1 {
          return None;
        }
        if record.target.Some? {
          var t := record.target.value;
          if t.id in targetIds {
            return None;
          }
          IdsAppend(state.baseline.targets, t);
          targetIds := targetIds + {t.id};
          state := ApplyUnit(state, TargetUnit(t));
        } else if record.suite.Some? {
          var s := record.suite.value;
          if s.id in suiteIds {
            return None;
          }
          IdsAppend(state.baseline.suites, s);
          suiteIds := suiteIds + {s.id};
          state := ApplyUnit(state, SuiteUnit(s));
        } else {
          var r := record.result.value;
          if state.mutation.None? || r.id in resultIds {
            return None;
          }
          IdsAppend(state.mutation.value.results, r);
          resultIds := resultIds + {r.id};
          state := ApplyUnit(state, ResultUnit(r));
        }
      }
      state := Canonical(state);
      var ok := Validate(state);
      result := if ok then Some(state) else None;
    }

    method GetCheckpoint(id: string) returns (result: Recovery)
      modifies this`baseDigest
      ensures result == Recover(codec, id, View())
      ensures baseDigest == if result.Found? then codec.hash(base.value) else old(baseDigest)
    {
      if base.None? {
        return Absent;
      }
      var decoded := codec.decodeState(base.value);
      if decoded.None? {
        return Corrupt;
      }
      var ok := Validate(decoded.value);
      if !ok || decoded.value.inputDigest != id {
        return Corrupt;
      }
      var digest := codec.hash(base.value);
      var applied := ApplyCheckpointJournal(id, digest, decoded.value);
      if applied.None? {
        return Corrupt;
      }
      baseDigest := digest;
      result := Found(applied.value);
    }

    method PutCheckpoint(id: string, state: State, reach: PutReach) returns (ok: bool)
      modifies this
      ensures ok <==> state.inputDigest == id && Valid(state) && reach.PutComplete?
      ensures state.inputDigest != id || !Valid(state) || reach.BeforeRename? ==>
        View() == old(View()) && baseDigest == old(baseDigest)
      ensures state.inputDigest == id && Valid(state) && !reach.BeforeRename? ==>
        var renamed := Renamed(old(View()), BaseText(codec, state));
        && View() == (if reach.AfterRename? then renamed else JournalRemoved(renamed))
        && baseDigest == codec.hash(BaseText(codec, state))
    {
      if state.inputDigest != id {
        return false;
      }
      var valid := Validate(state);
      if !valid {
        return false;
      }
      var data := BaseText(codec, state);
      if reach.BeforeRename? {
        return false;
      }
      base := Some(data);
      baseDigest := codec.hash(data);
      if reach.AfterRename? {
        return false;
      }
      journal := None;
      ok := true;
    }

    /** `written` characters of the line and its newline reach the journal; the append is
        acknowledged only when all of them did and the file was synchronised. */
    method AppendRecord(id: string, unit: Unit, written: nat, synced: bool) returns (ok: bool)
      modifies this
      ensures baseDigest == if old(baseDigest) != "" || base.None? then old(baseDigest) else codec.hash(base.value)
      ensures old(baseDigest) == "" && base.None? ==> !ok && View() == old(View())
      ensures old(baseDigest) != "" || base.Some? ==>
        var data := Line(codec, id, baseDigest, unit) + "\n";
        && (ok <==> written >= |data| && synced)
        && View() == Extended(old(View()), if written >= |data| then data else data[..written])
    {
      if baseDigest == "" {
        if base.None? {
          return false;
        }
        baseDigest := codec.hash(base.value);
      }
      var data := Line(codec, id, baseDigest, unit) + "\n";
      var reached := if written >= |data| then data else data[..written];
      journal := Some((if journal.None? then "" else journal.value) + reached);
      ok := written >= |data| && synced;
    }

    method DeleteCheckpoint(reach: DeleteReach) returns (ok: bool)
      modifies this
      ensures ok <==> reach.DeleteComplete?
      ensures View() == match reach
        case BeforeBase => old(View())
        case BeforeJournal => BaseRemoved(old(View()))
        case DeleteComplete => JournalRemoved(BaseRemoved(old(View())))
      ensures baseDigest == if ok then "" else old(baseDigest)
    {
      if reach.BeforeBase? {
        return false;
      }
      base := None;
      if reach.BeforeJournal? {
        return false;
      }
      journal := None;
      baseDigest := "";
      ok := true;
    }
  }
}
