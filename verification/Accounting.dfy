/** The accounting of a mutation run (internal/assure/mutation.go) and its audit
    (internal/report/audit.go), which recounts the dispositions and checks the equations. */
module Accounting {
  datatype Mutant = Mutant(id: string, path: string, line: int, accepted: bool)

  datatype Rejection = Rejection(id: string, diagnostic: string)

  datatype Catalog = Catalog(mutants: seq<Mutant>, rejections: seq<Rejection>)

  /** The status words of mutants; Other is any word the report does not know. */
  datatype Status =
    | Killed | Survived | Inconclusive | CompileRejected | Accepted | OutOfScope | Unknown | Other(word: string)

  datatype Evidence = Evidence(kind: string, id: string, status: Status, detail: string)

  datatype Finding = Finding(kind: string, mutant: string, summary: string)

  datatype Evaluation = Evaluation(evidence: seq<Evidence>, findings: seq<Finding>)

  datatype Disposition = Disposition(id: string, status: Status, path: string, line: int, detail: string,
                                     reused: bool, provenance: string)

  datatype Count = Count(discovered: int, selected: int, executed: int, killed: int, survived: int, inconclusive: int,
                         compileRejected: int, accepted: int, outOfScope: int, unknown: int,
                         reusedKilled: int, reusedSurvived: int)

  const VERDICT_ERROR := "ERROR"

  // ---- the catalog

  ghost predicate ValidCatalog(c: Catalog)
  {
    && (forall i :: 0 <= i < |c.mutants| ==> c.mutants[i].id != "")
    && (forall i, j :: 0 <= i < j < |c.mutants| ==> c.mutants[i].id != c.mutants[j].id)
    && (forall i, j :: 0 <= i < j < |c.rejections| ==> c.rejections[i].id != c.rejections[j].id)
    && (forall i :: 0 <= i < |c.rejections| ==> NotExecutable(c, c.rejections[i].id))
    && (forall k :: 0 <= k < |c.mutants| && !c.mutants[k].accepted ==> Rejected(c, c.mutants[k].id))
  }

  ghost predicate NotExecutable(c: Catalog, id: string)
  {
    exists k :: 0 <= k < |c.mutants| && c.mutants[k].id == id && !c.mutants[k].accepted
  }

  ghost predicate Rejected(c: Catalog, id: string)
  {
    exists i :: 0 <= i < |c.rejections| && c.rejections[i].id == id
  }

  method ValidateMutants(all: seq<Mutant>) returns (ok: bool, mutants: map<string, Mutant>)
    ensures ok <==> (forall i :: 0 <= i < |all| ==> all[i].id != "") &&
                    (forall i, j :: 0 <= i < j < |all| ==> all[i].id != all[j].id)
    ensures ok ==> forall id :: id in mutants <==> exists i :: 0 <= i < |all| && all[i].id == id
    ensures ok ==> forall i :: 0 <= i < |all| ==> all[i].id in mutants && mutants[all[i].id] == all[i]
  {
    mutants := map[];
    for i := 0 to |all|
      invariant forall j :: 0 <= j < i ==> all[j].id != "" && all[j].id in mutants && mutants[all[j].id] == all[j]
      invariant forall j, k :: 0 <= j < k < i ==> all[j].id != all[k].id
      invariant forall id :: id in mutants ==> exists j :: 0 <= j < i && all[j].id == id
    {
      if all[i].id == "" || all[i].id in mutants {
        return false, mutants;
      }
      mutants := mutants[all[i].id := all[i]];
    }
    ok := true;
  }

  method ValidateCatalog(c: Catalog) returns (ok: bool)
    ensures ok <==> ValidCatalog(c)
  {
    var mutants;
    ok, mutants := ValidateMutants(c.mutants);
    if !ok {
      return;
    }
    var rejected: set<string> := {};
    for i := 0 to |c.rejections|
      invariant rejected == set j | 0 <= j < i :: c.rejections[j].id
      invariant forall j, k :: 0 <= j < k < i ==> c.rejections[j].id != c.rejections[k].id
      invariant forall j :: 0 <= j < i ==> NotExecutable(c, c.rejections[j].id)
    {
      var id := c.rejections[i].id;
      assert id in mutants && !mutants[id].accepted <==> NotExecutable(c, id);
      if id !in mutants || id in rejected || mutants[id].accepted {
        return false;
      }
      rejected := rejected + {id};
    }
    for k := 0 to |c.mutants|
      invariant forall l :: 0 <= l < k && !c.mutants[l].accepted ==> Rejected(c, c.mutants[l].id)
    {
      assert c.mutants[k].id in rejected <==> Rejected(c, c.mutants[k].id);
      if !c.mutants[k].accepted && c.mutants[k].id !in rejected {
        return false;
      }
    }
  }

  // ---- the accounting

  function Selected(c: Catalog, replay: string): set<string>
  {
    (set i | 0 <= i < |c.mutants| && c.mutants[i].accepted && (replay == "" || c.mutants[i].id == replay) :: c.mutants[i].id)
    + (set i | 0 <= i < |c.rejections| && (replay == "" || c.rejections[i].id == replay) :: c.rejections[i].id)
  }

  datatype Terminal = Terminal(status: Status, detail: string)

  predicate Concludes(e: Evidence, selected: set<string>)
  {
    e.id in selected && e.kind == "mutation" && (e.status == Killed || e.status == CompileRejected || e.status == Accepted)
  }

  /** The terminal statuses the evidence gives, the last item on a mutant winning. */
  function FromEvidence(items: seq<Evidence>, selected: set<string>): map<string, Terminal>
  {
    if items == [] then map[] else
      var before, last := FromEvidence(items[..|items| - 1], selected), items[|items| - 1];
      if Concludes(last, selected) then before[last.id := Terminal(last.status, last.detail)] else before
  }

  function FindingStatus(f: Finding): Status
  {
    if f.kind == "surviving-mutant" || f.kind == "unreached-mutant" then Survived else Inconclusive
  }

  /** Findings override the evidence, again the last one winning. */
  function FromFindings(base: map<string, Terminal>, items: seq<Finding>, selected: set<string>): map<string, Terminal>
  {
    if items == [] then base else
      var before, last := FromFindings(base, items[..|items| - 1], selected), items[|items| - 1];
      if last.mutant in selected then before[last.mutant := Terminal(FindingStatus(last), last.summary)] else before
  }

  function Terminals(e: Evaluation, selected: set<string>): map<string, Terminal>
  {
    FromFindings(FromEvidence(e.evidence, selected), e.findings, selected)
  }

  /** Where a reused verdict came from: this run's evidence store, or else the resumed checkpoint. */
  datatype Reuse = Reuse(stored: map<string, string>, resumed: map<string, string>)

  function ReusedFrom(r: Reuse, id: string): (bool, string)
  {
    if id in r.stored then (true, r.stored[id])
    else if id in r.resumed then (r.resumed[id] != "", r.resumed[id])
    else (false, "")
  }

  function Dispose(m: Mutant, selected: set<string>, terminals: map<string, Terminal>, r: Reuse): Disposition
  {
    var t := if m.id !in selected then Terminal(OutOfScope, "outside the resolved mutation scope")
             else if m.id in terminals then terminals[m.id]
             else Terminal(Unknown, "selected mutant has no terminal disposition");
    var (reused, provenance) := ReusedFrom(r, m.id);
    Disposition(m.id, t.status, m.path, m.line, t.detail, reused, provenance)
  }

  function Dispositions(c: Catalog, replay: string, e: Evaluation, r: Reuse): (ds: seq<Disposition>)
    ensures |ds| == |c.mutants|
  {
    var selected := Selected(c, replay);
    seq(|c.mutants|, i requires 0 <= i < |c.mutants| => Dispose(c.mutants[i], selected, Terminals(e, selected), r))
  }

  function One(b: bool): int
  {
    if b then 1 else 0
  }

  predicate Executed(d: Disposition)
  {
    d.status == Killed || d.status == Survived || d.status == Inconclusive
  }

  /** One more disposition, as the run counts it: the scope counters are settled beforehand. */
  function Counted(a: Count, d: Disposition): Count
  {
    a.(executed := a.executed + One(Executed(d)),
       killed := a.killed + One(d.status == Killed),
       survived := a.survived + One(d.status == Survived),
       inconclusive := a.inconclusive + One(d.status == Inconclusive),
       compileRejected := a.compileRejected + One(d.status == CompileRejected),
       accepted := a.accepted + One(d.status == Accepted),
       unknown := a.unknown + One(d.status == Unknown),
       reusedKilled := a.reusedKilled + One(d.status == Killed && d.reused),
       reusedSurvived := a.reusedSurvived + One(d.status == Survived && d.reused))
  }

  function CountAll(start: Count, ds: seq<Disposition>): Count
  {
    if ds == [] then start else Counted(CountAll(start, ds[..|ds| - 1]), ds[|ds| - 1])
  }

  function Scope(c: Catalog, replay: string): Count
  {
    var n := |Selected(c, replay)|;
    Count(|c.mutants|, n, 0, 0, 0, 0, 0, 0, |c.mutants| - n, 0, 0, 0)
  }

  function Account(c: Catalog, replay: string, e: Evaluation, r: Reuse): Count
  {
    CountAll(Scope(c, replay), Dispositions(c, replay, e, r))
  }

  method SelectMutants(c: Catalog, replay: string) returns (selected: set<string>)
    ensures selected == Selected(c, replay)
  {
    selected := {};
    for i := 0 to |c.mutants|
      invariant selected == set j | 0 <= j < i && c.mutants[j].accepted && (replay == "" || c.mutants[j].id == replay) :: c.mutants[j].id
    {
      if c.mutants[i].accepted && (replay == "" || c.mutants[i].id == replay) {
        selected := selected + {c.mutants[i].id};
      }
    }
    ghost var accepted := selected;
    for i := 0 to |c.rejections|
      invariant selected == accepted + set j | 0 <= j < i && (replay == "" || c.rejections[j].id == replay) :: c.rejections[j].id
    {
      if replay == "" || c.rejections[i].id == replay {
        selected := selected + {c.rejections[i].id};
      }
    }
  }

  method CollectTerminals(e: Evaluation, selected: set<string>) returns (terminals: map<string, Terminal>)
    ensures terminals == Terminals(e, selected)
  {
    terminals := map[];
    for i := 0 to |e.evidence|
      invariant terminals == FromEvidence(e.evidence[..i], selected)
    {
      var item := e.evidence[i];
      assert e.evidence[..i + 1][..i] == e.evidence[..i];
      if item.id !in selected || item.kind != "mutation" {
        continue;
      }
      if item.status == Killed || item.status == CompileRejected || item.status == Accepted {
        terminals := terminals[item.id := Terminal(item.status, item.detail)];
      }
    }
    assert e.evidence[..|e.evidence|] == e.evidence;
    ghost var base := terminals;
    for i := 0 to |e.findings|
      invariant terminals == FromFindings(base, e.findings[..i], selected)
    {
      var f := e.findings[i];
      assert e.findings[..i + 1][..i] == e.findings[..i];
      if f.mutant !in selected {
        continue;
      }
      terminals := terminals[f.mutant := Terminal(FindingStatus(f), f.summary)];
    }
    assert e.findings[..|e.findings|] == e.findings;
  }

  method CountOne(before: Count, d: Disposition) returns (accounting: Count)
    ensures accounting == Counted(before, d)
  {
    accounting := before;
    match d.status
    case Killed =>
      accounting := accounting.(killed := accounting.killed + 1, executed := accounting.executed + 1);
      if d.reused {
        accounting := accounting.(reusedKilled := accounting.reusedKilled + 1);
      }
    case Survived =>
      accounting := accounting.(survived := accounting.survived + 1, executed := accounting.executed + 1);
      if d.reused {
        accounting := accounting.(reusedSurvived := accounting.reusedSurvived + 1);
      }
    case Inconclusive =>
      accounting := accounting.(inconclusive := accounting.inconclusive + 1, executed := accounting.executed + 1);
    case CompileRejected =>
      accounting := accounting.(compileRejected := accounting.compileRejected + 1);
    case Accepted =>
      accounting := accounting.(accepted := accounting.accepted + 1);
    case Unknown =>
      accounting := accounting.(unknown := accounting.unknown + 1);
    case _ =>
  }

  method MutationAccounting(c: Catalog, replay: string, e: Evaluation, r: Reuse)
    returns (accounting: Count, dispositions: seq<Disposition>)
    ensures dispositions == Dispositions(c, replay, e, r)
    ensures accounting == Account(c, replay, e, r)
  {
    hide Dispose, Counted, Terminals, Selected;
    var selected := SelectMutants(c, replay);
    accounting := Count(|c.mutants|, |selected|, 0, 0, 0, 0, 0, 0, |c.mutants| - |selected|, 0, 0, 0);
    var terminals := CollectTerminals(e, selected);
    dispositions := [];
    for i := 0 to |c.mutants|
      invariant dispositions == Dispositions(c, replay, e, r)[..i]
      invariant accounting == CountAll(Scope(c, replay), dispositions)
    {
      var d := Dispose(c.mutants[i], selected, terminals, r);
      ghost var before := dispositions;
      dispositions := dispositions + [d];
      assert dispositions[..|dispositions| - 1] == before;
      accounting := CountOne(accounting, d);
    }
    assert Dispositions(c, replay, e, r)[..|c.mutants|] == Dispositions(c, replay, e, r);
  }

  // ---- the audit

  predicate ReuseOk(d: Disposition)
  {
    && d.reused == (d.provenance != "")
    && (d.reused ==> d.status == Killed || d.status == Survived || d.status == Inconclusive || d.status == Accepted)
  }

  predicate EquationsHold(c: Count)
  {
    && c.discovered >= 0 && c.selected >= 0 && c.executed >= 0 && c.killed >= 0 && c.survived >= 0
    && c.inconclusive >= 0 && c.compileRejected >= 0 && c.accepted >= 0 && c.outOfScope >= 0 && c.unknown >= 0
    && c.reusedKilled >= 0 && c.reusedSurvived >= 0
    && c.reusedKilled + c.reusedSurvived <= c.executed
    && c.discovered == c.executed + c.compileRejected + c.accepted + c.outOfScope + c.unknown
    && c.selected == c.executed + c.compileRejected + c.accepted + c.unknown
    && c.executed == c.killed + c.survived + c.inconclusive
  }

  /** One more disposition, as the audit recounts it: by a switch of its own. */
  function Recounted(a: Count, d: Disposition): Count
  {
    match d.status
    case Killed =>
      a.(selected := a.selected + 1, executed := a.executed + 1, killed := a.killed + 1,
         reusedKilled := if d.reused then a.reusedKilled + 1 else a.reusedKilled)
    case Survived =>
      a.(selected := a.selected + 1, executed := a.executed + 1, survived := a.survived + 1,
         reusedSurvived := if d.reused then a.reusedSurvived + 1 else a.reusedSurvived)
    case Inconclusive =>
      a.(selected := a.selected + 1, executed := a.executed + 1, inconclusive := a.inconclusive + 1)
    case CompileRejected => a.(selected := a.selected + 1, compileRejected := a.compileRejected + 1)
    case Accepted => a.(selected := a.selected + 1, accepted := a.accepted + 1)
    case OutOfScope => a.(outOfScope := a.outOfScope + 1)
    case Unknown => a.(selected := a.selected + 1, unknown := a.unknown + 1)
    case Other(_) => a
  }

  function Recount(ds: seq<Disposition>): Count
  {
    if ds == [] then Count(0, 0, 0, 0, 0, 0, 0, 0, 0, 0, 0, 0) else
      var before := Recount(ds[..|ds| - 1]);
      Recounted(before.(discovered := before.discovered + 1), ds[|ds| - 1])
  }

  predicate Sound(d: Disposition)
  {
    d.id != "" && d.line >= 0 && ReuseOk(d) && !d.status.Other?
  }

  ghost predicate UniqueIds(ds: seq<Disposition>)
  {
    forall i, j :: 0 <= i < j < |ds| ==> ds[i].id != ds[j].id
  }

  /** What the audit demands. */
  ghost predicate Passes(c: Count, ds: seq<Disposition>, verdict: string)
  {
    && EquationsHold(c) && (c.unknown != 0 ==> verdict == VERDICT_ERROR) && |ds| == c.discovered
    && (forall i :: 0 <= i < |ds| ==> Sound(ds[i])) && UniqueIds(ds)
    && Recount(ds) == c
  }

  method Audit(c: Count, ds: seq<Disposition>, verdict: string) returns (ok: bool)
    ensures ok <==> Passes(c, ds, verdict)
  {
    hide Recounted, ReuseOk;
    if !EquationsHold(c) || (c.unknown != 0 && verdict != VERDICT_ERROR) || |ds| != c.discovered {
      return false;
    }
    var observed := Count(0, 0, 0, 0, 0, 0, 0, 0, 0, 0, 0, 0);
    var seen: set<string> := {};
    for i := 0 to |ds|
      invariant forall j :: 0 <= j < i ==> Sound(ds[j])
      invariant seen == set j | 0 <= j < i :: ds[j].id
      invariant forall j, k :: 0 <= j < k < i ==> ds[j].id != ds[k].id
      invariant observed == Recount(ds[..i])
    {
      var d := ds[i];
      if d.id == "" || d.line < 0 || d.id in seen || !ReuseOk(d) {
        return false;
      }
      seen := seen + {d.id};
      if d.status.Other? {
        return false;
      }
      assert ds[..i + 1][..i] == ds[..i];
      observed := Recounted(observed.(discovered := observed.discovered + 1), d);
    }
    assert ds[..|ds|] == ds;
    ok := observed == c;
  }

  // ---- what the figures count

  /** The places of the dispositions of this status, and of those among them that are reused. */
  ghost function Places(ds: seq<Disposition>, status: Status): set<int>
  {
    set i | 0 <= i < |ds| && ds[i].status == status
  }

  ghost function ReusedPlaces(ds: seq<Disposition>, status: Status): set<int>
  {
    set i | 0 <= i < |ds| && ds[i].status == status && ds[i].reused
  }

  /** Each figure is the number of dispositions of its own status. */
  ghost predicate FiguresOf(n: Count, ds: seq<Disposition>)
  {
    && n.killed == |Places(ds, Killed)| && n.survived == |Places(ds, Survived)|
    && n.inconclusive == |Places(ds, Inconclusive)|
    && n.executed == |Places(ds, Killed)| + |Places(ds, Survived)| + |Places(ds, Inconclusive)|
    && n.compileRejected == |Places(ds, CompileRejected)| && n.accepted == |Places(ds, Accepted)|
    && n.unknown == |Places(ds, Unknown)|
    && n.reusedKilled == |ReusedPlaces(ds, Killed)| && n.reusedSurvived == |ReusedPlaces(ds, Survived)|
  }

  lemma PlacesGrow(ds: seq<Disposition>, status: Status)
    requires ds != []
    ensures |Places(ds, status)| == |Places(ds[..|ds| - 1], status)| + One(ds[|ds| - 1].status == status)
  {
    var n, front := |ds| - 1, ds[..|ds| - 1];
    var before, all := Places(front, status), Places(ds, status);
    forall i ensures i in all <==> i in before || (i == n && ds[n].status == status) {
      assert 0 <= i < n ==> front[i] == ds[i];
    }
    assert all == before + (if ds[n].status == status then {n} else {});
  }

  lemma ReusedPlacesGrow(ds: seq<Disposition>, status: Status)
    requires ds != []
    ensures |ReusedPlaces(ds, status)| ==
            |ReusedPlaces(ds[..|ds| - 1], status)| + One(ds[|ds| - 1].status == status && ds[|ds| - 1].reused)
  {
    var n, front := |ds| - 1, ds[..|ds| - 1];
    var before, all := ReusedPlaces(front, status), ReusedPlaces(ds, status);
    forall i ensures i in all <==> i in before || (i == n && ds[n].status == status && ds[n].reused) {
      assert 0 <= i < n ==> front[i] == ds[i];
    }
    assert all == before + (if ds[n].status == status && ds[n].reused then {n} else {});
  }

  lemma NoPlaces(status: Status)
    ensures Places([], status) == {} && ReusedPlaces([], status) == {}
  {
  }

  lemma AllPlacesGrow(ds: seq<Disposition>)
    requires ds != []
    ensures forall status ::
      var front, last := ds[..|ds| - 1], ds[|ds| - 1];
      && |Places(ds, status)| == |Places(front, status)| + One(last.status == status)
      && |ReusedPlaces(ds, status)| == |ReusedPlaces(front, status)| + One(last.status == status && last.reused)
  {
    forall status ensures
      var front, last := ds[..|ds| - 1], ds[|ds| - 1];
      && |Places(ds, status)| == |Places(front, status)| + One(last.status == status)
      && |ReusedPlaces(ds, status)| == |ReusedPlaces(front, status)| + One(last.status == status && last.reused)
    {
      PlacesGrow(ds, status);
      ReusedPlacesGrow(ds, status);
    }
  }

  lemma {:induction false} RunCounts(start: Count, ds: seq<Disposition>)
    requires start == Count(start.discovered, start.selected, 0, 0, 0, 0, 0, 0, start.outOfScope, 0, 0, 0)
    ensures FiguresOf(CountAll(start, ds), ds)
  {
    hide Places, ReusedPlaces;
    if ds == [] {
      forall status ensures Places([], status) == {} && ReusedPlaces([], status) == {} {
        NoPlaces(status);
      }
    } else {
      RunCounts(start, ds[..|ds| - 1]);
      AllPlacesGrow(ds);
    }
  }

  lemma {:induction false} AuditCounts(ds: seq<Disposition>)
    ensures FiguresOf(Recount(ds), ds)
    ensures Recount(ds).discovered == |ds| && Recount(ds).outOfScope == |Places(ds, OutOfScope)|
  {
    hide Places, ReusedPlaces;
    if ds == [] {
      forall status ensures Places([], status) == {} && ReusedPlaces([], status) == {} {
        NoPlaces(status);
      }
    } else {
      AuditCounts(ds[..|ds| - 1]);
      AllPlacesGrow(ds);
    }
  }

  /** The figures of a run: each counts the dispositions of its own status, and so does the audit's recount. */
  lemma FiguresCount(c: Catalog, replay: string, e: Evaluation, r: Reuse)
    ensures
      var ds := Dispositions(c, replay, e, r);
      var n := Account(c, replay, e, r);
      && FiguresOf(n, ds) && FiguresOf(Recount(ds), ds)
      && n.discovered == |ds| && n.selected == |Selected(c, replay)| && n.outOfScope == n.discovered - n.selected
      && Recount(ds).discovered == |ds| && Recount(ds).outOfScope == |Places(ds, OutOfScope)|
  {
    hide Selected, CountAll, Recount, FiguresOf;
    RunCounts(Scope(c, replay), Dispositions(c, replay, e, r));
    AuditCounts(Dispositions(c, replay, e, r));
    ScopeStays(Scope(c, replay), Dispositions(c, replay, e, r));
  }

  lemma {:induction false} ScopeStays(start: Count, ds: seq<Disposition>)
    ensures
      var n := CountAll(start, ds);
      n.discovered == start.discovered && n.selected == start.selected && n.outOfScope == start.outOfScope
  {
    if ds != [] {
      ScopeStays(start, ds[..|ds| - 1]);
    }
  }

  // ---- the accounting passes its audit

  function InScope(ds: seq<Disposition>): nat
  {
    if ds == [] then 0 else InScope(ds[..|ds| - 1]) + (if ds[|ds| - 1].status.OutOfScope? then 0 else 1)
  }

  ghost predicate AllKnown(ds: seq<Disposition>)
  {
    forall i :: 0 <= i < |ds| ==> !ds[i].status.Other?
  }

  lemma OneMoreBalances(a: Count, d: Disposition)
    requires EquationsHold(a) && !d.status.Other?
    ensures
      var n := Recounted(a.(discovered := a.discovered + 1), d);
      && EquationsHold(n) && n.discovered == a.discovered + 1
      && n.selected == a.selected + One(!d.status.OutOfScope?) && n.unknown == a.unknown + One(d.status.Unknown?)
  {
  }

  lemma {:induction false} RecountBalances(ds: seq<Disposition>)
    requires AllKnown(ds)
    ensures EquationsHold(Recount(ds)) && Recount(ds).discovered == |ds| && Recount(ds).selected == InScope(ds)
    ensures Recount(ds).unknown != 0 <==> exists i :: 0 <= i < |ds| && ds[i].status.Unknown?
  {
    if ds != [] {
      RecountBalances(ds[..|ds| - 1]);
      LastBalances(ds);
    }
  }

  lemma LastBalances(ds: seq<Disposition>)
    requires ds != [] && AllKnown(ds) && EquationsHold(Recount(ds[..|ds| - 1]))
    ensures EquationsHold(Recount(ds))
    ensures Recount(ds).discovered == Recount(ds[..|ds| - 1]).discovered + 1
    ensures Recount(ds).selected == Recount(ds[..|ds| - 1]).selected + One(!ds[|ds| - 1].status.OutOfScope?)
    ensures Recount(ds).unknown == Recount(ds[..|ds| - 1]).unknown + One(ds[|ds| - 1].status.Unknown?) >= 0
  {
    hide Recounted, EquationsHold;
    OneMoreBalances(Recount(ds[..|ds| - 1]), ds[|ds| - 1]);
    CountsAreNatural(Recount(ds[..|ds| - 1]));
  }

  lemma CountsAreNatural(n: Count)
    requires EquationsHold(n)
    ensures n.unknown >= 0
  {
  }

  /** The run and the audit count the same, but for the scope counters. */
  lemma {:induction false} CountsAgree(start: Count, ds: seq<Disposition>)
    requires start == Count(start.discovered, start.selected, 0, 0, 0, 0, 0, 0, start.outOfScope, 0, 0, 0)
    ensures CountAll(start, ds) == Recount(ds).(discovered := start.discovered, selected := start.selected,
                                                outOfScope := start.outOfScope)
  {
    if ds != [] {
      CountsAgree(start, ds[..|ds| - 1]);
    }
  }

  lemma {:induction false} FromEvidenceKnown(items: seq<Evidence>, selected: set<string>)
    ensures forall id :: id in FromEvidence(items, selected) ==>
      var st := FromEvidence(items, selected)[id].status; !st.Other? && !st.OutOfScope?
  {
    if items != [] {
      FromEvidenceKnown(items[..|items| - 1], selected);
    }
  }

  lemma {:induction false} FromFindingsKnown(base: map<string, Terminal>, items: seq<Finding>, selected: set<string>)
    requires forall id :: id in base ==> !base[id].status.Other? && !base[id].status.OutOfScope?
    ensures forall id :: id in FromFindings(base, items, selected) ==>
      var st := FromFindings(base, items, selected)[id].status; !st.Other? && !st.OutOfScope?
  {
    if items != [] {
      FromFindingsKnown(base, items[..|items| - 1], selected);
    }
  }

  lemma DispositionsKnown(c: Catalog, replay: string, e: Evaluation, r: Reuse)
    ensures
      var ds := Dispositions(c, replay, e, r);
      AllKnown(ds) && forall i :: 0 <= i < |ds| ==> (ds[i].status == OutOfScope <==> ds[i].id !in Selected(c, replay))
  {
    var selected := Selected(c, replay);
    FromEvidenceKnown(e.evidence, selected);
    FromFindingsKnown(FromEvidence(e.evidence, selected), e.findings, selected);
  }

  function IdsOf(ds: seq<Disposition>): (ids: set<string>)
    ensures forall i :: 0 <= i < |ds| ==> ds[i].id in ids
    ensures forall id :: id in ids ==> exists i :: 0 <= i < |ds| && ds[i].id == id
  {
    if ds == [] then {} else
      var front := ds[..|ds| - 1];
      assert forall i :: 0 <= i < |front| ==> ds[i] == front[i];
      IdsOf(front) + {ds[|ds| - 1].id}
  }

  /** A set drawn from distinct identifiers has as many members as there are positions in it. */
  lemma {:induction false} MembersCounted(ds: seq<Disposition>, s: set<string>)
    requires UniqueIds(ds)
    requires forall i :: 0 <= i < |ds| ==> (ds[i].status == OutOfScope <==> ds[i].id !in s)
    ensures InScope(ds) == |s * IdsOf(ds)|
  {
    if ds == [] {
      assert s * IdsOf(ds) == {};
    } else {
      var front, last := ds[..|ds| - 1], ds[|ds| - 1];
      MembersCounted(front, s);
      assert last.id !in IdsOf(front);
      if last.id in s {
        assert s * IdsOf(ds) == s * IdsOf(front) + {last.id};
      } else {
        assert s * IdsOf(ds) == s * IdsOf(front);
      }
    }
  }

  lemma SelectedIsListed(c: Catalog, replay: string, id: string)
    requires ValidCatalog(c) && id in Selected(c, replay)
    ensures exists k :: 0 <= k < |c.mutants| && c.mutants[k].id == id
  {
    if Rejected(c, id) {
      assert NotExecutable(c, id);
    }
  }

  lemma DispositionFields(c: Catalog, replay: string, e: Evaluation, r: Reuse)
    ensures
      var ds := Dispositions(c, replay, e, r);
      forall i :: 0 <= i < |ds| ==>
        && ds[i].id == c.mutants[i].id && ds[i].line == c.mutants[i].line
        && (ds[i].reused, ds[i].provenance) == ReusedFrom(r, c.mutants[i].id)
  {
  }

  lemma SelectedCounted(c: Catalog, replay: string, e: Evaluation, r: Reuse)
    requires ValidCatalog(c)
    ensures UniqueIds(Dispositions(c, replay, e, r))
    ensures InScope(Dispositions(c, replay, e, r)) == |Selected(c, replay)|
  {
    hide Dispositions, Selected, NotExecutable, Rejected;
    var ds, selected := Dispositions(c, replay, e, r), Selected(c, replay);
    DispositionFields(c, replay, e, r);
    DispositionsKnown(c, replay, e, r);
    assert UniqueIds(ds);
    MembersCounted(ds, selected);
    forall id | id in selected ensures id in IdsOf(ds) {
      SelectedIsListed(c, replay, id);
      var k :| 0 <= k < |c.mutants| && c.mutants[k].id == id;
      assert ds[k].id == id;
    }
    assert selected * IdsOf(ds) == selected;
  }

  predicate InRun(replay: string, id: string)
  {
    replay == "" || id == replay
  }

  predicate Conclusive(item: Evidence, id: string)
  {
    item.id == id && item.kind == "mutation" && (item.status == Killed || item.status == CompileRejected || item.status == Accepted)
  }

  ghost predicate Concluded(items: seq<Evidence>, id: string)
  {
    exists i :: 0 <= i < |items| && Conclusive(items[i], id)
  }

  /** The last conclusive item on the mutant has this status. */
  ghost predicate ConcludedAs(items: seq<Evidence>, id: string, status: Status)
  {
    exists i :: 0 <= i < |items| && Conclusive(items[i], id) && items[i].status == status &&
                forall j :: i < j < |items| ==> !Conclusive(items[j], id)
  }

  ghost predicate HasFinding(items: seq<Finding>, id: string)
  {
    exists i :: 0 <= i < |items| && items[i].mutant == id
  }

  /** This is the last finding on the mutant. */
  ghost predicate LastFinding(items: seq<Finding>, id: string, f: Finding)
  {
    exists i :: 0 <= i < |items| && items[i].mutant == id && items[i] == f &&
                forall j :: i < j < |items| ==> items[j].mutant != id
  }

  /** The last finding on the mutant says that it survived, or that nothing reached it. */
  ghost predicate FoundAlive(items: seq<Finding>, id: string)
  {
    exists f :: LastFinding(items, id, f) && (f.kind == "surviving-mutant" || f.kind == "unreached-mutant")
  }

  ghost predicate FoundOtherwise(items: seq<Finding>, id: string)
  {
    exists f :: LastFinding(items, id, f) && f.kind != "surviving-mutant" && f.kind != "unreached-mutant"
  }

  lemma LastFindingStep(items: seq<Finding>, id: string, f: Finding)
    requires items != []
    ensures
      var front, last := items[..|items| - 1], items[|items| - 1];
      LastFinding(items, id, f) <==> if last.mutant == id then f == last else LastFinding(front, id, f)
  {
    var front, last := items[..|items| - 1], items[|items| - 1];
    assert forall i :: 0 <= i < |front| ==> front[i] == items[i];
    if last.mutant == id {
      assert items[|items| - 1] == last;
    } else if LastFinding(front, id, f) {
      var i :| 0 <= i < |front| && front[i].mutant == id && front[i] == f && forall j :: i < j < |front| ==> front[j].mutant != id;
      assert items[i] == f && forall j :: i < j < |items| ==> items[j].mutant != id;
    }
  }

  /** What the last finding on a mutant decides. */
  lemma {:induction false} LastFindingDecides(base: map<string, Terminal>, items: seq<Finding>, selected: set<string>, id: string)
    requires id in selected
    ensures
      var all := FromFindings(base, items, selected);
      && (HasFinding(items, id) <==> exists f :: LastFinding(items, id, f))
      && (HasFinding(items, id) ==> id in all)
      && (forall f :: LastFinding(items, id, f) ==>
           && id in all && all[id].detail == f.summary
           && all[id].status == if f.kind == "surviving-mutant" || f.kind == "unreached-mutant" then Survived else Inconclusive)
  {
    if items != [] {
      var front, last := items[..|items| - 1], items[|items| - 1];
      LastFindingDecides(base, front, selected, id);
      assert forall i :: 0 <= i < |front| ==> front[i] == items[i];
      forall f ensures LastFinding(items, id, f) <==> if last.mutant == id then f == last else LastFinding(front, id, f) {
        LastFindingStep(items, id, f);
      }
      if last.mutant == id {
        assert items[|items| - 1].mutant == id && LastFinding(items, id, last);
      } else {
        assert HasFinding(items, id) <==> HasFinding(front, id);
        if HasFinding(front, id) {
          var f :| LastFinding(front, id, f);
          assert LastFinding(items, id, f);
        }
      }
    }
  }

  /** The last finding is one finding. */
  lemma LastFindingIsOne(items: seq<Finding>, id: string, f: Finding, g: Finding)
    requires LastFinding(items, id, f) && LastFinding(items, id, g)
    ensures f == g
  {
  }

  /** In a valid catalog the mutants selected are those the replay, if any, asks for. */
  lemma SelectedIsInRun(c: Catalog, replay: string, k: nat)
    requires ValidCatalog(c) && k < |c.mutants|
    ensures c.mutants[k].id in Selected(c, replay) <==> InRun(replay, c.mutants[k].id)
  {
    if !c.mutants[k].accepted {
      assert Rejected(c, c.mutants[k].id);
    }
  }

  lemma {:induction false} EvidenceConcludes(items: seq<Evidence>, selected: set<string>, id: string)
    requires id in selected
    ensures id in FromEvidence(items, selected) <==> Concluded(items, id)
    ensures forall st :: id in FromEvidence(items, selected) ==>
      (FromEvidence(items, selected)[id].status == st <==> ConcludedAs(items, id, st))
  {
    if items != [] {
      var front, last := items[..|items| - 1], items[|items| - 1];
      EvidenceConcludes(front, selected, id);
      assert forall i :: 0 <= i < |front| ==> front[i] == items[i];
      if Conclusive(last, id) {
        forall st ensures ConcludedAs(items, id, st) <==> st == last.status {
          assert Conclusive(items[|items| - 1], id);
        }
      } else {
        forall st ensures ConcludedAs(items, id, st) <==> ConcludedAs(front, id, st) {
          if ConcludedAs(front, id, st) {
            var i :| 0 <= i < |front| && Conclusive(front[i], id) && front[i].status == st &&
                     forall j :: i < j < |front| ==> !Conclusive(front[j], id);
            assert forall j :: i < j < |items| ==> !Conclusive(items[j], id);
          }
        }
        assert Concluded(items, id) <==> Concluded(front, id);
      }
    }
  }

  lemma {:induction false} FindingsOverride(base: map<string, Terminal>, items: seq<Finding>, selected: set<string>, id: string)
    requires id in selected
    ensures
      var all := FromFindings(base, items, selected);
      if HasFinding(items, id) then id in all && (all[id].status == Survived || all[id].status == Inconclusive)
      else (id in all <==> id in base) && (id in all ==> all[id] == base[id])
  {
    if items != [] {
      var front, last := items[..|items| - 1], items[|items| - 1];
      FindingsOverride(base, front, selected, id);
      assert forall i :: 0 <= i < |front| ==> front[i] == items[i];
      if last.mutant == id {
        assert items[|items| - 1].mutant == id;
      } else {
        assert HasFinding(items, id) <==> HasFinding(front, id);
      }
    }
  }

  /** The run concludes on the mutant, whatever the conclusion. */
  ghost predicate Decided(e: Evaluation, id: string)
  {
    HasFinding(e.findings, id) || Concluded(e.evidence, id)
  }

  /** The run concludes that a test ran into the mutant, or that it is accepted. */
  ghost predicate Runnable(e: Evaluation, id: string)
  {
    HasFinding(e.findings, id) || ConcludedAs(e.evidence, id, Killed) || ConcludedAs(e.evidence, id, Accepted)
  }

  /** The verdict on the mutant is said to be reused. */
  predicate Reused(r: Reuse, id: string)
  {
    id in r.stored || (id in r.resumed && r.resumed[id] != "")
  }

  /** What can be checked of a mutant before the accounting: its line is not negative, and a reused
      verdict has a provenance and belongs to a mutant of the run that can have been executed. */
  ghost predicate Auditable(m: Mutant, replay: string, e: Evaluation, r: Reuse)
  {
    && m.line >= 0
    && (m.id in r.stored ==> r.stored[m.id] != "")
    && (Reused(r, m.id) ==> InRun(replay, m.id) && Runnable(e, m.id))
  }

  /** The status of a disposition, in terms of the catalog and what the run reports. */
  lemma StatusOf(c: Catalog, replay: string, e: Evaluation, r: Reuse, k: nat)
    requires ValidCatalog(c) && k < |c.mutants|
    ensures
      var id, st := c.mutants[k].id, Dispositions(c, replay, e, r)[k].status;
      var open := InRun(replay, id) && !HasFinding(e.findings, id);
      && (st == OutOfScope <==> !InRun(replay, id))
      && (st == Survived <==> InRun(replay, id) && FoundAlive(e.findings, id))
      && (st == Inconclusive <==> InRun(replay, id) && FoundOtherwise(e.findings, id))
      && (st == Killed <==> open && ConcludedAs(e.evidence, id, Killed))
      && (st == CompileRejected <==> open && ConcludedAs(e.evidence, id, CompileRejected))
      && (st == Accepted <==> open && ConcludedAs(e.evidence, id, Accepted))
      && (st == Unknown <==> InRun(replay, id) && !Decided(e, id))
      && (Executed(Dispositions(c, replay, e, r)[k]) || st == Accepted <==> InRun(replay, id) && Runnable(e, id))
  {
    hide Selected, ValidCatalog, FromFindings, FromEvidence, HasFinding, Concluded, ConcludedAs, LastFinding;
    var id, selected := c.mutants[k].id, Selected(c, replay);
    SelectedIsInRun(c, replay, k);
    if id in selected {
      EvidenceConcludes(e.evidence, selected, id);
      if id in FromEvidence(e.evidence, selected) {
        FromEvidenceStatus(e.evidence, selected, id);
      }
      FindingsOverride(FromEvidence(e.evidence, selected), e.findings, selected, id);
      LastFindingDecides(FromEvidence(e.evidence, selected), e.findings, selected, id);
      ConcludedOnce(e.evidence, id);
    }
  }

  lemma ConcludedOnce(items: seq<Evidence>, id: string)
    ensures forall st :: ConcludedAs(items, id, st) ==> Concluded(items, id)
    ensures forall st, su :: ConcludedAs(items, id, st) && ConcludedAs(items, id, su) ==> st == su
  {
  }

  /** A disposition tells what decided it: the last finding's summary, or else the detail of the last
      conclusive item; and a stored verdict's provenance comes before a resumed one's. */
  lemma DispositionTells(c: Catalog, replay: string, e: Evaluation, r: Reuse, k: nat, f: Finding)
    requires ValidCatalog(c) && k < |c.mutants| && InRun(replay, c.mutants[k].id)
    ensures
      var d, m := Dispositions(c, replay, e, r)[k], c.mutants[k];
      && d.id == m.id && d.path == m.path && d.line == m.line && (d.reused <==> Reused(r, m.id))
      && d.provenance == (if m.id in r.stored then r.stored[m.id] else if m.id in r.resumed then r.resumed[m.id] else "")
      && (LastFinding(e.findings, m.id, f) ==> d.detail == f.summary)
      && (!HasFinding(e.findings, m.id) && Concluded(e.evidence, m.id) ==> LastDetail(e.evidence, m.id, d.detail))
  {
    hide Selected, ValidCatalog, FromFindings, FromEvidence, HasFinding, Concluded, LastFinding, LastDetail;
    var id, selected := c.mutants[k].id, Selected(c, replay);
    SelectedIsInRun(c, replay, k);
    EvidenceConcludes(e.evidence, selected, id);
    DetailConcludes(e.evidence, selected, id);
    FindingsOverride(FromEvidence(e.evidence, selected), e.findings, selected, id);
    LastFindingDecides(FromEvidence(e.evidence, selected), e.findings, selected, id);
  }

  /** The last conclusive item on the mutant has this detail. */
  ghost predicate LastDetail(items: seq<Evidence>, id: string, detail: string)
  {
    exists i :: 0 <= i < |items| && Conclusive(items[i], id) && items[i].detail == detail &&
                forall j :: i < j < |items| ==> !Conclusive(items[j], id)
  }

  lemma {:induction false} DetailConcludes(items: seq<Evidence>, selected: set<string>, id: string)
    requires id in selected
    ensures id in FromEvidence(items, selected) ==> LastDetail(items, id, FromEvidence(items, selected)[id].detail)
  {
    if items != [] {
      var front, last := items[..|items| - 1], items[|items| - 1];
      DetailConcludes(front, selected, id);
      assert forall i :: 0 <= i < |front| ==> front[i] == items[i];
      if Conclusive(last, id) {
        assert items[|items| - 1] == last;
      } else if id in FromEvidence(front, selected) {
        var detail := FromEvidence(front, selected)[id].detail;
        var i :| 0 <= i < |front| && Conclusive(front[i], id) && front[i].detail == detail &&
                 forall j :: i < j < |front| ==> !Conclusive(front[j], id);
        assert items[i] == front[i] && forall j :: i < j < |items| ==> !Conclusive(items[j], id);
      }
    }
  }

  lemma {:induction false} FromEvidenceStatus(items: seq<Evidence>, selected: set<string>, id: string)
    requires id in FromEvidence(items, selected)
    ensures var st := FromEvidence(items, selected)[id].status; st == Killed || st == CompileRejected || st == Accepted
  {
    var front, last := items[..|items| - 1], items[|items| - 1];
    if !Concludes(last, selected) || last.id != id {
      FromEvidenceStatus(front, selected, id);
    }
  }

  lemma RunnableIsConcluded(e: Evaluation, id: string)
    ensures Runnable(e, id) ==> Decided(e, id)
  {
  }

  /** The accounting of a valid catalog always satisfies every equation and the recount.  The audit
      passes it exactly when every mutant is auditable and, unless the verdict is ERROR, the run
      decides every mutant it was asked for. */
  lemma AuditPassesIff(c: Catalog, replay: string, e: Evaluation, r: Reuse, verdict: string)
    requires ValidCatalog(c)
    ensures
      var ds := Dispositions(c, replay, e, r);
      var count := Account(c, replay, e, r);
      && EquationsHold(count) && Recount(ds) == count
      && (Passes(count, ds, verdict) <==>
           && (forall m :: m in c.mutants ==> Auditable(m, replay, e, r))
           && (verdict == VERDICT_ERROR || forall m :: m in c.mutants && InRun(replay, m.id) ==> Decided(e, m.id)))
  {
    hide Dispositions, Selected, CountAll, Recount, EquationsHold, ValidCatalog, Runnable, Decided;
    var ds, count := Dispositions(c, replay, e, r), Account(c, replay, e, r);
    DispositionFields(c, replay, e, r);
    DispositionsKnown(c, replay, e, r);
    RecountBalances(ds);
    CountsAgree(Scope(c, replay), ds);
    SelectedCounted(c, replay, e, r);
    BalancedScope(Recount(ds));
    assert Recount(ds) == count;
    NamedInCatalog(c);
    forall i | 0 <= i < |ds|
      ensures Sound(ds[i]) <==> Auditable(c.mutants[i], replay, e, r)
      ensures ds[i].status == Unknown <==> InRun(replay, c.mutants[i].id) && !Decided(e, c.mutants[i].id)
    {
      StatusOf(c, replay, e, r, i);
    }
    assert (forall i :: 0 <= i < |ds| ==> Sound(ds[i])) <==> forall m :: m in c.mutants ==> Auditable(m, replay, e, r);
  }

  lemma NamedInCatalog(c: Catalog)
    requires ValidCatalog(c)
    ensures forall i :: 0 <= i < |c.mutants| ==> c.mutants[i].id != ""
  {
  }

  lemma BalancedScope(n: Count)
    requires EquationsHold(n)
    ensures n.outOfScope == n.discovered - n.selected
  {
  }
}
