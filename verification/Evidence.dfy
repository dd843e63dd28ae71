/** The mutation evidence kept from run to run (internal/assure/mutation_evidence.go): who killed a
    mutant, or who failed to, each target with the key of its behaviour at the time. */
module Evidence {
  import opened Wrappers
  import opened Ordering
  import opened Routing
  import opened RoutingSoundness
  import opened Groups

  datatype Identity = Identity(pkg: string, name: string, kind: string)

  datatype TargetKey = TargetKey(id: Identity, key: string, wholeTree: bool)

  datatype SuiteKey = SuiteKey(pkg: string, key: string, wholeTree: bool)

  datatype FindingSeed = FindingSeed(kind: string, summary: string)

  /** A record carries what its outcome needs. */
  datatype Proof =
    | KilledProof(killedBy: seq<TargetKey>)
    | SurvivedProof(exhausted: seq<TargetKey>, finding: FindingSeed)
    | UnreachedProof(suite: SuiteKey, finding: FindingSeed)

  datatype Record = Record(mutant: string, path: string, pkg: string, provenance: string, proof: Proof)

  function Identify(t: Target): Identity
  {
    Identity(t.pkg, t.name, t.kind)
  }

  const NOBODY := Identity("", "", "")

  /** What a run knows before it evaluates mutants.  `wholeKey` and `wholeSuite` compute keys over the
      whole tree, empty where the package does not read it. */
  datatype Tables = Tables(targets: seq<Target>, keys: map<Identity, string>, baselineWhole: set<Identity>,
                           passed: set<Identity>, suites: map<string, string>, suiteBaselineWhole: set<string>,
                           wholeKey: Target -> string, wholeSuite: (string, seq<TargetKey>) -> string,
                           batchKey: Target -> string)
  {
    function Key(id: Identity): string
    {
      if id in keys then keys[id] else ""
    }

    function WholeKey(id: Identity): string
    {
      var t := LastOf(targets, id);
      if t.Some? then wholeKey(t.value) else ""
    }

    /** The keys of all targets of the package, None when one of them is not measured, passed or keyed. */
    function WholeMembers(pkg: string, among: seq<Target>): Option<seq<TargetKey>>
    {
      if among == [] then Some([]) else
        var before, t := WholeMembers(pkg, among[..|among| - 1]), among[|among| - 1];
        var id := Identify(t);
        if before.None? then None
        else if id.pkg != pkg then before
        else if t.covered.None? || id !in passed || WholeKey(id) == "" then None
        else Some(before.value + [TargetKey(id, WholeKey(id), true)])
    }

    function WholeSuiteKey(pkg: string): string
    {
      var members := WholeMembers(pkg, targets);
      if members.None? then "" else wholeSuite(pkg, members.value)
    }

    function SuiteKeyNow(pkg: string): string
    {
      if pkg in suites then suites[pkg] else ""
    }

    /** The recorded key is the target's key today. */
    predicate Matches(id: Identity, k: TargetKey)
    {
      if k.wholeTree then WholeKey(id) != "" && WholeKey(id) == k.key
      else id !in baselineWhole && Key(id) != "" && Key(id) == k.key
    }

    predicate SuiteMatches(pkg: string, k: SuiteKey)
    {
      if k.wholeTree then WholeSuiteKey(pkg) != "" && WholeSuiteKey(pkg) == k.key
      else pkg !in suiteBaselineWhole && SuiteKeyNow(pkg) != "" && SuiteKeyNow(pkg) == k.key
    }

    predicate Wide(t: Target)
    {
      t.wholeTree || Identify(t) in baselineWhole
    }

    /** The key to record a target under. */
    function KeyOf(t: Target): TargetKey
    {
      var id := Identify(t);
      TargetKey(id, if Wide(t) then WholeKey(id) else Key(id), Wide(t))
    }

    function SuiteKeyOf(pkg: string, whole: bool): SuiteKey
    {
      var wide := whole || pkg in suiteBaselineWhole;
      SuiteKey(pkg, if wide then WholeSuiteKey(pkg) else SuiteKeyNow(pkg), wide)
    }
  }

  /** The last target of this identity. */
  function LastOf(targets: seq<Target>, id: Identity): Option<Target>
  {
    if targets == [] then None
    else if Identify(targets[|targets| - 1]) == id then Some(targets[|targets| - 1])
    else LastOf(targets[..|targets| - 1], id)
  }

  predicate Holds(t: Tables, group: seq<Target>, k: TargetKey)
  {
    exists i :: 0 <= i < |group| && Identify(group[i]) == k.id && k.id in t.passed && t.Matches(k.id, k)
  }

  /** Every recorded killer is in the group, passed its baseline and behaves as it did. */
  predicate ContainsSet(t: Tables, group: seq<Target>, recorded: seq<TargetKey>)
  {
    |recorded| <= |group| && forall i :: 0 <= i < |recorded| ==> Holds(t, group, recorded[i])
  }

  predicate Exhausted(t: Tables, exhausted: seq<TargetKey>, target: Target)
  {
    && target.covered.Some? && Identify(target) in t.passed
    && exists i :: 0 <= i < |exhausted| && exhausted[i].id == Identify(target) && t.Matches(Identify(target), exhausted[i])
  }

  /** Every reaching target is on record as having failed to kill, and behaves as it did. */
  predicate Exhausts(t: Tables, exhausted: seq<TargetKey>, reaching: seq<Target>)
  {
    reaching != [] && forall i :: 0 <= i < |reaching| ==> Exhausted(t, exhausted, reaching[i])
  }

  predicate SuiteAnswers(t: Tables, pkg: string, suite: SuiteKey, r: Route)
  {
    Unrouted(r) && suite.pkg == pkg && t.SuiteMatches(pkg, suite)
  }

  /** Some group of the route holds the recorded killers. */
  predicate KillReusable(t: Tables, record: Record, r: Route)
  {
    && record.proof.KilledProof? && record.proof.killedBy != []
    && var groups := GroupsOf(r.reaching, t.batchKey);
       exists i :: 0 <= i < |groups| && ContainsSet(t, groups[i], record.proof.killedBy)
  }

  predicate VerdictReusable(t: Tables, m: Mutant, record: Record, r: Route)
  {
    match record.proof
    case KilledProof(_) => false
    case SurvivedProof(exhausted, _) => Exhausts(t, exhausted, r.reaching)
    case UnreachedProof(suite, _) => SuiteAnswers(t, m.pkg, suite, r)
  }

  function KeysOf(t: Tables, targets: seq<Target>): (keys: seq<TargetKey>)
    ensures |keys| == |targets| && forall i :: 0 <= i < |keys| ==> keys[i] == t.KeyOf(targets[i])
  {
    seq(|targets|, i requires 0 <= i < |targets| => t.KeyOf(targets[i]))
  }

  predicate KillRecordable(t: Tables, targets: seq<Target>)
  {
    targets != [] && forall i :: 0 <= i < |targets| ==>
      Identify(targets[i]) != NOBODY && Identify(targets[i]) in t.passed && t.KeyOf(targets[i]).key != ""
  }

  predicate SurvivalRecordable(t: Tables, targets: seq<Target>, finding: FindingSeed)
  {
    targets != [] && finding.kind != "" && finding.summary != "" && forall i :: 0 <= i < |targets| ==>
      targets[i].covered.Some? && Identify(targets[i]) in t.passed && t.KeyOf(targets[i]).key != ""
  }

  predicate SuiteRecordable(t: Tables, pkg: string, whole: bool, finding: FindingSeed)
  {
    finding.kind != "" && finding.summary != "" && t.SuiteKeyOf(pkg, whole).key != ""
  }

  /** What a run asks to record. */
  datatype Entry =
    | Kill(mutant: Mutant, targets: seq<Target>)
    | Survival(mutant: Mutant, targets: seq<Target>, finding: FindingSeed)
    | SuiteRun(mutant: Mutant, whole: bool, finding: FindingSeed)

  function ProofOf(t: Tables, e: Entry): Option<Proof>
  {
    match e
    case Kill(m, targets) => if KillRecordable(t, targets) then Some(KilledProof(KeysOf(t, targets))) else None
    case Survival(m, targets, finding) =>
      if SurvivalRecordable(t, targets, finding) then Some(SurvivedProof(KeysOf(t, targets), finding)) else None
    case SuiteRun(m, whole, finding) =>
      if SuiteRecordable(t, m.pkg, whole, finding) then Some(UnreachedProof(t.SuiteKeyOf(m.pkg, whole), finding)) else None
  }

  function Recorded(t: Tables, provenance: string, recorded: map<string, Record>, e: Entry): map<string, Record>
  {
    var proof := ProofOf(t, e);
    if proof.None? then recorded
    else recorded[e.mutant.id := Record(e.mutant.id, e.mutant.path, e.mutant.pkg, provenance, proof.value)]
  }

  /** What is stored: the run's own records, and those of earlier runs it did not replace, for the
      mutants of the catalog. */
  function Stored(recorded: map<string, Record>, records: map<string, Record>, catalog: set<string>): map<string, Record>
  {
    map id | id in (recorded.Keys + records.Keys) && id in catalog :: if id in recorded then recorded[id] else records[id]
  }

  class MutationEvidence {
    const provenance: string
    const tables: Tables
    const records: map<string, Record>
    var wholeKeys: map<Identity, string>
    var wholeSuites: map<string, string>
    var recorded: map<string, Record>
    var reused: map<string, string>

    /** The memo holds what would be computed. */
    ghost predicate Valid()
      reads this`wholeKeys, this`wholeSuites
    {
      && (forall id :: id in wholeKeys ==> wholeKeys[id] == tables.WholeKey(id))
      && (forall pkg :: pkg in wholeSuites ==> wholeSuites[pkg] == tables.WholeSuiteKey(pkg))
    }

    constructor (provenance: string, tables: Tables, records: map<string, Record>)
      ensures Valid() && this.provenance == provenance && this.tables == tables && this.records == records
      ensures recorded == map[] && reused == map[]
    {
      this.provenance, this.tables, this.records := provenance, tables, records;
      wholeKeys, wholeSuites, recorded, reused := map[], map[], map[], map[];
    }

    method WholeTargetKey(id: Identity) returns (key: string)
      requires Valid()
      modifies this`wholeKeys
      ensures Valid() && key == tables.WholeKey(id)
    {
      if id in wholeKeys {
        return wholeKeys[id];
      }
      var target := LastOf(tables.targets, id);
      if target.None? {
        wholeKeys := wholeKeys[id := ""];
        return "";
      }
      key := tables.wholeKey(target.value);
      wholeKeys := wholeKeys[id := key];
    }

    method WholeSuiteKey(pkg: string) returns (key: string)
      requires Valid()
      modifies this`wholeKeys, this`wholeSuites
      ensures Valid() && key == tables.WholeSuiteKey(pkg)
    {
      if pkg in wholeSuites {
        return wholeSuites[pkg];
      }
      var keys: seq<TargetKey> := [];
      var targets := tables.targets;
      for i := 0 to |targets|
        invariant Valid() && tables.WholeMembers(pkg, targets[..i]) == Some(keys)
      {
        var t := targets[i];
        assert targets[..i + 1][..i] == targets[..i];
        if t.pkg != pkg {
          continue;
        }
        var id := Identify(t);
        var whole := "";
        if t.covered.Some? && id in tables.passed {
          whole := WholeTargetKey(id);
        }
        if whole == "" {
          MembersFail(tables, pkg, targets, i + 1);
          wholeSuites := wholeSuites[pkg := ""];
          return "";
        }
        keys := keys + [TargetKey(id, whole, true)];
      }
      assert targets[..|targets|] == targets;
      key := tables.wholeSuite(pkg, keys);
      wholeSuites := wholeSuites[pkg := key];
    }

    method TargetMatches(id: Identity, k: TargetKey) returns (ok: bool)
      requires Valid()
      modifies this`wholeKeys
      ensures Valid() && ok == tables.Matches(id, k)
    {
      if k.wholeTree {
        var key := WholeTargetKey(id);
        return key != "" && key == k.key;
      }
      if id in tables.baselineWhole {
        return false;
      }
      var key := tables.Key(id);
      ok := key != "" && key == k.key;
    }

    method ContainsTargetSet(group: seq<Target>, killers: seq<TargetKey>) returns (ok: bool)
      requires Valid()
      modifies this`wholeKeys
      ensures Valid() && ok == ContainsSet(tables, group, killers)
    {
      if |killers| > |group| {
        return false;
      }
      for i := 0 to |killers|
        invariant Valid() && forall j :: 0 <= j < i ==> Holds(tables, group, killers[j])
      {
        var index := IndexOf(group, killers[i].id);
        if index == |group| || killers[i].id !in tables.passed {
          return false;
        }
        var matched := TargetMatches(killers[i].id, killers[i]);
        if !matched {
          return false;
        }
      }
      ok := true;
    }

    /** The provenance of the recorded kill, when the route still holds its killers. */
    method ReuseKill(m: Mutant, r: Route) returns (provenance: Option<string>)
      requires Valid()
      modifies this`wholeKeys, this`reused
      ensures Valid()
      ensures provenance.Some? <==> m.id in records && KillReusable(tables, records[m.id], r)
      ensures provenance.Some? ==> provenance.value == records[m.id].provenance
      ensures reused == if provenance.Some? then old(reused)[m.id := provenance.value] else old(reused)
    {
      provenance := None;
      if m.id !in records || !records[m.id].proof.KilledProof? || records[m.id].proof.killedBy == [] {
        return;
      }
      var record := records[m.id];
      var groups := MutationTargetGroups(r.reaching, tables.batchKey);
      for i := 0 to |groups|
        invariant Valid() && reused == old(reused)
        invariant forall j :: 0 <= j < i ==> !ContainsSet(tables, groups[j], record.proof.killedBy)
      {
        var contained := ContainsTargetSet(groups[i], record.proof.killedBy);
        if contained {
          reused := reused[m.id := record.provenance];
          return Some(record.provenance);
        }
      }
    }

    method ExhaustedBy(exhausted: seq<TargetKey>, target: Target) returns (ok: bool)
      requires Valid()
      modifies this`wholeKeys
      ensures Valid() && ok == Exhausted(tables, exhausted, target)
    {
      var id := Identify(target);
      if target.covered.None? || id !in tables.passed {
        return false;
      }
      for i := 0 to |exhausted|
        invariant Valid() && forall j :: 0 <= j < i ==> !(exhausted[j].id == id && tables.Matches(id, exhausted[j]))
      {
        if exhausted[i].id == id {
          var matched := TargetMatches(id, exhausted[i]);
          if matched {
            return true;
          }
        }
      }
      ok := false;
    }

    method SuiteMatches(pkg: string, k: SuiteKey) returns (ok: bool)
      requires Valid()
      modifies this`wholeKeys, this`wholeSuites
      ensures Valid() && ok == tables.SuiteMatches(pkg, k)
    {
      if k.wholeTree {
        var key := WholeSuiteKey(pkg);
        return key != "" && key == k.key;
      }
      ok := pkg !in tables.suiteBaselineWhole && tables.SuiteKeyNow(pkg) != "" && tables.SuiteKeyNow(pkg) == k.key;
    }

    /** The recorded survival or unreached finding, when it still answers for the route. */
    method ReuseVerdict(m: Mutant, r: Route) returns (finding: Option<FindingSeed>, provenance: string)
      requires Valid()
      modifies this`wholeKeys, this`wholeSuites, this`reused
      ensures Valid()
      ensures finding.Some? <==> m.id in records && VerdictReusable(tables, m, records[m.id], r)
      ensures finding.Some? ==> finding.value == records[m.id].proof.finding && provenance == records[m.id].provenance
      ensures reused == if finding.Some? then old(reused)[m.id := provenance] else old(reused)
    {
      finding, provenance := None, "";
      if m.id !in records {
        return;
      }
      var record := records[m.id];
      match record.proof
      case KilledProof(_) =>
        return;
      case SurvivedProof(exhausted, seed) =>
        if r.reaching == [] {
          return;
        }
        for i := 0 to |r.reaching|
          invariant Valid() && reused == old(reused)
          invariant forall j :: 0 <= j < i ==> Exhausted(tables, exhausted, r.reaching[j])
        {
          var ok := ExhaustedBy(exhausted, r.reaching[i]);
          if !ok {
            return;
          }
        }
        reused := reused[m.id := record.provenance];
        return Some(seed), record.provenance;
      case UnreachedProof(suite, seed) =>
        if r.reaching != [] || r.discharged != [] || suite.pkg != m.pkg {
          return;
        }
        var ok := SuiteMatches(m.pkg, suite);
        if !ok {
          return;
        }
        reused := reused[m.id := record.provenance];
        return Some(seed), record.provenance;
    }

    method TargetKeyOf(t: Target) returns (key: TargetKey)
      requires Valid()
      modifies this`wholeKeys
      ensures Valid() && key == tables.KeyOf(t)
    {
      var id := Identify(t);
      if t.wholeTree || id in tables.baselineWhole {
        var whole := WholeTargetKey(id);
        return TargetKey(id, whole, true);
      }
      key := TargetKey(id, tables.Key(id), false);
    }

    method RecordKill(m: Mutant, targets: seq<Target>)
      requires Valid()
      modifies this`wholeKeys, this`recorded
      ensures Valid() && recorded == Recorded(tables, provenance, old(recorded), Kill(m, targets))
      ensures !KillOnRecord(tables, targets) ==> recorded == old(recorded)
      ensures KillOnRecord(tables, targets) ==>
        && recorded.Keys == old(recorded).Keys + {m.id} && recorded[m.id].provenance == provenance
        && recorded[m.id].proof.KilledProof? && AreKeysOf(tables, targets, recorded[m.id].proof.killedBy)
    {
      hide KillOnRecord, SurvivalOnRecord, AreKeysOf;
      RecordsExactly(tables, m, targets, FindingSeed("", ""), false);
      if targets == [] {
        return;
      }
      var killers: seq<TargetKey> := [];
      for i := 0 to |targets|
        invariant Valid() && recorded == old(recorded)
        invariant killers == KeysOf(tables, targets[..i])
        invariant forall j :: 0 <= j < i ==>
          Identify(targets[j]) != NOBODY && Identify(targets[j]) in tables.passed && tables.KeyOf(targets[j]).key != ""
      {
        var id := Identify(targets[i]);
        if id == NOBODY || id !in tables.passed {
          return;
        }
        var key := TargetKeyOf(targets[i]);
        if key.key == "" {
          return;
        }
        killers := killers + [key];
      }
      assert targets[..|targets|] == targets;
      recorded := recorded[m.id := Record(m.id, m.path, m.pkg, provenance, KilledProof(killers))];
    }

    method RecordSurvived(m: Mutant, targets: seq<Target>, finding: FindingSeed)
      requires Valid()
      modifies this`wholeKeys, this`recorded
      ensures Valid() && recorded == Recorded(tables, provenance, old(recorded), Survival(m, targets, finding))
      ensures !SurvivalOnRecord(tables, targets, finding) ==> recorded == old(recorded)
      ensures SurvivalOnRecord(tables, targets, finding) ==>
        && recorded.Keys == old(recorded).Keys + {m.id} && recorded[m.id].provenance == provenance
        && recorded[m.id].proof.SurvivedProof? && recorded[m.id].proof.finding == finding
        && AreKeysOf(tables, targets, recorded[m.id].proof.exhausted)
    {
      hide KillOnRecord, SurvivalOnRecord, AreKeysOf;
      RecordsExactly(tables, m, targets, finding, false);
      if targets == [] || finding.kind == "" || finding.summary == "" {
        return;
      }
      var exhausted: seq<TargetKey> := [];
      for i := 0 to |targets|
        invariant Valid() && recorded == old(recorded)
        invariant exhausted == KeysOf(tables, targets[..i])
        invariant forall j :: 0 <= j < i ==>
          targets[j].covered.Some? && Identify(targets[j]) in tables.passed && tables.KeyOf(targets[j]).key != ""
      {
        if targets[i].covered.None? || Identify(targets[i]) !in tables.passed {
          return;
        }
        var key := TargetKeyOf(targets[i]);
        if key.key == "" {
          return;
        }
        exhausted := exhausted + [key];
      }
      assert targets[..|targets|] == targets;
      recorded := recorded[m.id := Record(m.id, m.path, m.pkg, provenance, SurvivedProof(exhausted, finding))];
    }

    method RecordSuite(m: Mutant, whole: bool, finding: FindingSeed)
      requires Valid()
      modifies this`wholeKeys, this`wholeSuites, this`recorded
      ensures Valid() && recorded == Recorded(tables, provenance, old(recorded), SuiteRun(m, whole, finding))
      ensures
        var wide := whole || m.pkg in tables.suiteBaselineWhole;
        var key := if wide then tables.WholeSuiteKey(m.pkg) else if m.pkg in tables.suites then tables.suites[m.pkg] else "";
        if key == "" || finding.kind == "" || finding.summary == "" then recorded == old(recorded)
        else
          && recorded.Keys == old(recorded).Keys + {m.id} && recorded[m.id].provenance == provenance
          && recorded[m.id].proof == UnreachedProof(SuiteKey(m.pkg, key, wide), finding)
    {
      hide KillOnRecord, SurvivalOnRecord, AreKeysOf;
      RecordsExactly(tables, m, [], finding, whole);
      if finding.kind == "" || finding.summary == "" {
        return;
      }
      var wide := whole || m.pkg in tables.suiteBaselineWhole;
      var key := tables.SuiteKeyNow(m.pkg);
      if wide {
        key := WholeSuiteKey(m.pkg);
      }
      if key == "" {
        return;
      }
      recorded := recorded[m.id := Record(m.id, m.path, m.pkg, provenance, UnreachedProof(SuiteKey(m.pkg, key, wide), finding))];
    }

    function Disposition(id: string): (bool, string)
      reads this`reused
    {
      if id in reused then (true, reused[id]) else (false, "")
    }

    /** The store for the next run: what this run recorded, and of the mutants it did not record what
        earlier runs did, as far as they are in the catalog. */
    method Store(catalog: seq<string>) returns (store: map<string, Record>)
      ensures store == Stored(recorded, records, set id | id in catalog)
      ensures forall id :: id in store <==> id in catalog && (id in recorded || id in records)
      ensures forall id :: id in store && id in recorded ==> store[id] == recorded[id]
      ensures forall id :: id in store && id !in recorded ==> store[id] == records[id]
    {
      var known := set id | id in catalog;
      store := map id | id in recorded && id in known :: recorded[id];
      var carried := map id | id in records && id in known && id !in recorded :: records[id];
      store := store + carried;
    }
  }

  /** The key to record for a target, in terms of the tables: over the whole tree for a target that reads
      it, in this run or in its baseline. */
  predicate IsKeyOf(t: Tables, x: Target, k: TargetKey)
  {
    var id := Identify(x);
    && k.id == id
    && (k.wholeTree <==> x.wholeTree || id in t.baselineWhole)
    && k.key == if k.wholeTree then t.WholeKey(id) else if id in t.keys then t.keys[id] else ""
  }

  predicate AreKeysOf(t: Tables, targets: seq<Target>, keys: seq<TargetKey>)
  {
    |keys| == |targets| && forall i :: 0 <= i < |keys| ==> IsKeyOf(t, targets[i], keys[i])
  }

  ghost predicate HasKey(t: Tables, x: Target)
  {
    Identify(x) in t.passed && exists k :: IsKeyOf(t, x, k) && k.key != ""
  }

  /** Every member of the killing group is named, passed its baseline and has a key. */
  ghost predicate KillOnRecord(t: Tables, targets: seq<Target>)
  {
    targets != [] && forall x :: x in targets ==> Identify(x) != NOBODY && HasKey(t, x)
  }

  /** Every executed target is measured, passed its baseline and has a key, and the finding says something. */
  ghost predicate SurvivalOnRecord(t: Tables, targets: seq<Target>, finding: FindingSeed)
  {
    targets != [] && finding.kind != "" && finding.summary != "" && forall x :: x in targets ==> x.covered.Some? && HasKey(t, x)
  }

  /** What is recorded, and when: the keys of all targets, in order, or nothing. */
  lemma RecordsExactly(t: Tables, m: Mutant, targets: seq<Target>, finding: FindingSeed, whole: bool)
    ensures
      var proof := ProofOf(t, Kill(m, targets));
      && (proof.Some? <==> KillOnRecord(t, targets))
      && (proof.Some? ==> proof.value.KilledProof? && AreKeysOf(t, targets, proof.value.killedBy))
    ensures
      var proof := ProofOf(t, Survival(m, targets, finding));
      && (proof.Some? <==> SurvivalOnRecord(t, targets, finding))
      && (proof.Some? ==>
           proof.value.SurvivedProof? && proof.value.finding == finding && AreKeysOf(t, targets, proof.value.exhausted))
    ensures
      var proof := ProofOf(t, SuiteRun(m, whole, finding));
      var wide := whole || m.pkg in t.suiteBaselineWhole;
      var key := if wide then t.WholeSuiteKey(m.pkg) else if m.pkg in t.suites then t.suites[m.pkg] else "";
      && (proof.Some? <==> key != "" && finding.kind != "" && finding.summary != "")
      && (proof.Some? ==> proof.value == UnreachedProof(SuiteKey(m.pkg, key, wide), finding))
  {
    forall x | x in targets ensures IsKeyOf(t, x, t.KeyOf(x)) && forall k :: IsKeyOf(t, x, k) ==> k == t.KeyOf(x) {
    }
    forall i | 0 <= i < |targets| ensures targets[i] in targets {
    }
  }

  /** A target vouches for a recorded key: it passed its baseline and has that key today, over the whole tree
      when the record has it so, and over its narrow inputs only when its baseline read no further. */
  ghost predicate Vouches(t: Tables, k: TargetKey)
  {
    && k.id in t.passed && k.key != ""
    && (k.wholeTree ==> t.WholeKey(k.id) == k.key)
    && (!k.wholeTree ==> k.id !in t.baselineWhole && k.id in t.keys && t.keys[k.id] == k.key)
  }

  ghost predicate SuiteVouches(t: Tables, k: SuiteKey)
  {
    && k.key != ""
    && (k.wholeTree ==> t.WholeSuiteKey(k.pkg) == k.key)
    && (!k.wholeTree ==> k.pkg !in t.suiteBaselineWhole && k.pkg in t.suites && t.suites[k.pkg] == k.key)
  }

  ghost predicate HasKillers(t: Tables, g: seq<Target>, killers: seq<TargetKey>)
  {
    |killers| <= |g| && forall k :: k in killers ==> Vouches(t, k) && exists x :: x in g && Identify(x) == k.id
  }

  ghost predicate HasSurvived(t: Tables, exhausted: seq<TargetKey>, x: Target)
  {
    x.covered.Some? && exists k :: k in exhausted && k.id == Identify(x) && Vouches(t, k)
  }

  /** When a record is reused: a kill when one group of the route has all its killers, no more of them than
      members, and each vouches; a survival when every target of the route is measured and a key of its own
      vouches; an unreached finding when nothing is routed and the suite of the mutant's package vouches. */
  lemma ReuseIsExact(t: Tables, m: Mutant, record: Record, r: Route)
    ensures record.proof.KilledProof? ==>
      var killers := record.proof.killedBy;
      var held := killers != [] && exists g :: g in GroupsOf(r.reaching, t.batchKey) && HasKillers(t, g, killers);
      KillReusable(t, record, r) <==> held
    ensures record.proof.SurvivedProof? ==>
      var survived := r.reaching != [] && forall x :: x in r.reaching ==> HasSurvived(t, record.proof.exhausted, x);
      VerdictReusable(t, m, record, r) <==> survived
    ensures record.proof.UnreachedProof? ==>
      var suite := record.proof.suite;
      var unreached := r.reaching == [] && r.discharged == [] && suite.pkg == m.pkg && SuiteVouches(t, suite);
      VerdictReusable(t, m, record, r) <==> unreached
    ensures !record.proof.KilledProof? ==> !KillReusable(t, record, r)
    ensures record.proof.KilledProof? ==> !VerdictReusable(t, m, record, r)
  {
    hide GroupsOf;
    match record.proof
    case KilledProof(killers) =>
      var groups := GroupsOf(r.reaching, t.batchKey);
      forall g: seq<Target> ensures ContainsSet(t, g, killers) <==> HasKillers(t, g, killers) {
        ContainsExactly(t, g, killers);
      }
      forall i | 0 <= i < |groups| ensures groups[i] in groups {
      }
    case SurvivedProof(exhausted, _) =>
      forall x ensures Exhausted(t, exhausted, x) <==> HasSurvived(t, exhausted, x) {
        ExhaustedExactly(t, exhausted, x);
      }
      forall i | 0 <= i < |r.reaching| ensures r.reaching[i] in r.reaching {
      }
    case UnreachedProof(suite, _) =>
  }

  lemma ContainsExactly(t: Tables, g: seq<Target>, killers: seq<TargetKey>)
    ensures ContainsSet(t, g, killers) <==> HasKillers(t, g, killers)
  {
    forall i | 0 <= i < |killers|
      ensures Holds(t, g, killers[i]) <==> Vouches(t, killers[i]) && exists x :: x in g && Identify(x) == killers[i].id
    {
      HoldsExactly(t, g, killers[i]);
    }
    hide Holds, Vouches;
    if HasKillers(t, g, killers) {
      forall i | 0 <= i < |killers| ensures Holds(t, g, killers[i]) {
        assert killers[i] in killers;
      }
    }
  }

  lemma HoldsExactly(t: Tables, g: seq<Target>, k: TargetKey)
    ensures Holds(t, g, k) <==> Vouches(t, k) && exists x :: x in g && Identify(x) == k.id
  {
    if x :| x in g && Identify(x) == k.id {
      var i :| 0 <= i < |g| && g[i] == x;
    }
  }

  lemma ExhaustedExactly(t: Tables, exhausted: seq<TargetKey>, x: Target)
    ensures Exhausted(t, exhausted, x) <==> HasSurvived(t, exhausted, x)
  {
    if k :| k in exhausted && k.id == Identify(x) && Vouches(t, k) {
      var i :| 0 <= i < |exhausted| && exhausted[i] == k;
    }
  }

  /** With one target for each identity, the key over the whole tree is the one computed for it. */
  lemma {:induction false} WholeKeyOfTarget(targets: seq<Target>, x: Target)
    requires x in targets && forall y :: y in targets && Identify(y) == Identify(x) ==> y == x
    ensures LastOf(targets, Identify(x)) == Some(x)
  {
    var front, last := targets[..|targets| - 1], targets[|targets| - 1];
    assert targets == front + [last];
    if Identify(last) != Identify(x) {
      WholeKeyOfTarget(front, x);
    }
  }

  /** A package's suite has a key over the whole tree only when each of its targets is measured, passed
      and has one; the key is computed from those, in order. */
  lemma {:induction false} WholeMembersExactly(t: Tables, pkg: string, among: seq<Target>)
    ensures
      var members := t.WholeMembers(pkg, among);
      && (members.Some? <==> forall x :: x in among && x.pkg == pkg ==>
           x.covered.Some? && Identify(x) in t.passed && t.WholeKey(Identify(x)) != "")
      && (members.Some? ==> forall k :: k in members.value <==>
           exists x :: x in among && x.pkg == pkg && k == TargetKey(Identify(x), t.WholeKey(Identify(x)), true))
  {
    if among != [] {
      var front, last := among[..|among| - 1], among[|among| - 1];
      WholeMembersExactly(t, pkg, front);
      assert among == front + [last];
      assert forall x :: x in among <==> x in front || x == last;
    }
  }

  lemma {:induction false} MembersFail(t: Tables, pkg: string, targets: seq<Target>, n: nat)
    requires n <= |targets| && t.WholeMembers(pkg, targets[..n]).None?
    ensures t.WholeMembers(pkg, targets).None?
    decreases |targets| - n
  {
    if n < |targets| {
      assert targets[..n + 1][..n] == targets[..n];
      MembersFail(t, pkg, targets, n + 1);
    } else {
      assert targets[..n] == targets;
    }
  }

  function IndexOf(group: seq<Target>, id: Identity): (i: nat)
    ensures i <= |group|
    ensures i < |group| ==> Identify(group[i]) == id
    ensures i == |group| ==> forall j :: 0 <= j < |group| ==> Identify(group[j]) != id
  {
    if group == [] || Identify(group[0]) == id then 0 else 1 + IndexOf(group[1..], id)
  }
}
