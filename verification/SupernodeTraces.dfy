// What a supernode row is after any interleaving of chain syncs and probes.
module SupernodeTraces {
  import opened Sql
  import opened Supernodes

  // ---- The two halves of a row ----

  datatype ChainColumns = ChainColumns(validatorMoniker: string, currentState: string, ipAddress: string)

  datatype ProbeColumns = ProbeColumns(
    actualVersion: string, hardware: Hardware, lastStatusCheck: Option<int>, isStatusApiAvailable: bool,
    lastSuccessfulProbe: Option<int>, failedProbeCounter: int, lastKnownActualVersion: Option<string>)

  function ChainHalf(row: Row): ChainColumns {
    ChainColumns(row.validatorMoniker, row.currentState, row.ipAddress)
  }

  function ProbeHalf(row: Row): ProbeColumns {
    ProbeColumns(row.actualVersion, row.hardware, row.lastStatusCheck, row.isStatusApiAvailable,
                 row.lastSuccessfulProbe, row.failedProbeCounter, row.lastKnownActualVersion)
  }

  // A table with the chain columns alone, and only the chain sync writing it.
  function ChainOnly(records: seq<ChainRecord>): ChainColumns
    requires records != []
  {
    var r := records[|records| - 1];
    if |records| == 1 then ChainColumns(r.validatorMoniker, r.currentState, r.ipAddress)
    else
      var before := ChainOnly(records[..|records| - 1]);
      ChainColumns(if r.validatorMoniker != "" then r.validatorMoniker else before.validatorMoniker,
                   r.currentState, r.ipAddress)
  }

  // A table with the probe columns alone, and only probes writing it.
  function ProbeOnly(probes: seq<ProbeRecord>): ProbeColumns {
    if probes == [] then ProbeColumns("", NO_HARDWARE, None, false, None, 0, None)
    else
      var c, p := ProbeOnly(probes[..|probes| - 1]), probes[|probes| - 1];
      var version := if p.actualVersion != "" then p.actualVersion else c.actualVersion;
      if p.available then
        ProbeColumns(version, p.hardware, p.lastStatusCheck, true, Some(p.probeTime), 0,
                     if p.actualVersion != "" then Some(p.actualVersion) else c.lastKnownActualVersion)
      else if c.failedProbeCounter < MAX_INTEGER then
        ProbeColumns(version, p.hardware, p.lastStatusCheck, false, c.lastSuccessfulProbe,
                     c.failedProbeCounter + 1, c.lastKnownActualVersion)
      else c
  }

  // The chain syncs in a trace.
  function Upserts(trace: seq<Event>): seq<ChainRecord> {
    if trace == [] then []
    else
      var last := trace[|trace| - 1];
      Upserts(trace[..|trace| - 1]) + if last.Upsert? then [last.chain] else []
  }

  // The probes in a trace that find the row there.
  function LiveProbes(trace: seq<Event>): seq<ProbeRecord> {
    if trace == [] then []
    else
      var init, last := trace[..|trace| - 1], trace[|trace| - 1];
      LiveProbes(init) + if last.Probe? && Upserts(init) != [] then [last.probe] else []
  }

  lemma SyncInserts(r: ChainRecord)
    ensures ChainHalf(Inserted(r)) == ChainOnly([r]) && ProbeHalf(Inserted(r)) == ProbeOnly([])
  {
  }

  lemma SyncUpdates(row: Row, r: ChainRecord, ups: seq<ChainRecord>)
    requires ups != [] && ChainHalf(row) == ChainOnly(ups)
    ensures ChainHalf(ChainUpdated(row, r)) == ChainOnly(ups + [r])
    ensures ProbeHalf(ChainUpdated(row, r)) == ProbeHalf(row)
  {
    assert (ups + [r])[..|ups|] == ups;
  }

  lemma ProbeUpdates(row: Row, p: ProbeRecord, live: seq<ProbeRecord>)
    requires ProbeHalf(row) == ProbeOnly(live)
    ensures ProbeHalf(ProbeUpdated(row, p)) == ProbeOnly(live + [p])
    ensures ChainHalf(ProbeUpdated(row, p)) == ChainHalf(row)
  {
    assert (live + [p])[..|live|] == live;
  }

  // The row exists from the first chain sync on; its chain columns are those of
  // a table that only the chain sync writes, its probe columns those of a table
  // that only the probes after the first sync write.
  ghost predicate Halves(row: Option<Row>, ups: seq<ChainRecord>, live: seq<ProbeRecord>) {
    if row.None? then ups == [] && live == []
    else ups != [] && ChainHalf(row.value) == ChainOnly(ups) && ProbeHalf(row.value) == ProbeOnly(live)
  }

  lemma HalvesStep(row: Option<Row>, e: Event, ups: seq<ChainRecord>, live: seq<ProbeRecord>)
    requires Halves(row, ups, live)
    ensures match e
            case Upsert(_, r) => Halves(OnRow(row, e), ups + [r], live)
            case Probe(_, p) => Halves(OnRow(row, e), ups, if ups != [] then live + [p] else live)
  {
    match e
    case Upsert(_, r) =>
      if row.Some? {
        SyncUpdates(row.value, r, ups);
      } else {
        SyncInserts(r);
        assert ups + [r] == [r];
      }
    case Probe(_, p) =>
      if row.Some? {
        ProbeUpdates(row.value, p, live);
      }
  }

  lemma {:induction false} HalvesAreIndependent(trace: seq<Event>)
    ensures Halves(RowAfter(trace), Upserts(trace), LiveProbes(trace))
  {
    if trace != [] {
      var init, last := trace[..|trace| - 1], trace[|trace| - 1];
      HalvesAreIndependent(init);
      HalvesStep(RowAfter(init), last, Upserts(init), LiveProbes(init));
      assert Upserts(init) + [] == Upserts(init) && LiveProbes(init) + [] == LiveProbes(init);
    }
  }

  // Two interleavings of the same syncs and the same probes agree on every
  // column but metricsReport: neither writer disturbs the other's data.
  lemma {:induction false} InterleavingIrrelevant(one: seq<Event>, two: seq<Event>)
    requires Upserts(one) == Upserts(two) && LiveProbes(one) == LiveProbes(two)
    ensures RowAfter(one).Some? <==> RowAfter(two).Some?
    ensures RowAfter(one).Some? ==>
              RowAfter(one).value == RowAfter(two).value.(metricsReport := RowAfter(one).value.metricsReport)
  {
    HalvesAreIndependent(one);
    HalvesAreIndependent(two);
  }

  // The same for the row of any account in the shared table.
  lemma {:induction false} TableHalves(trace: seq<Event>, account: string)
    ensures var mine := EventsOf(trace, account);
            Halves(RowIn(TableAfter(trace), account), Upserts(mine), LiveProbes(mine))
  {
    RowsAreIndependent(trace, account);
    HalvesAreIndependent(EventsOf(trace, account));
  }

  // ---- metricsReport, the column both write ----

  // Statement i writes metricsReport.
  ghost predicate WritesReport(trace: seq<Event>, i: nat)
    requires i < |trace|
  {
    match trace[i]
    case Upsert(_, r) => r.metricsReport.Some? || RowAfter(trace[..i]).None?
    case Probe(_, p) => RowAfter(trace[..i]).Some? && !ProbeOverflows(RowAfter(trace[..i]).value, p)
  }

  function ReportOf(e: Event): Option<Json> {
    match e
    case Upsert(_, r) => r.metricsReport
    case Probe(_, p) => p.metricsReport
  }

  // Statement i wrote metricsReport and none after it did.
  ghost predicate IsLastReport(trace: seq<Event>, i: nat) {
    && i < |trace| && WritesReport(trace, i)
    && forall j :: i < j < |trace| ==> !WritesReport(trace, j)
  }

  lemma WritesReportPrefix(trace: seq<Event>, i: nat)
    requires i < |trace| - 1
    ensures WritesReport(trace, i) <==> WritesReport(trace[..|trace| - 1], i)
  {
    assert trace[..|trace| - 1][..i] == trace[..i];
  }

  // metricsReport is the value of whichever of the two wrote it last.
  lemma {:induction false} LastReportWins(trace: seq<Event>, i: nat)
    requires IsLastReport(trace, i)
    ensures RowAfter(trace).Some? && RowAfter(trace).value.metricsReport == ReportOf(trace[i])
  {
    var init, last := trace[..|trace| - 1], trace[|trace| - 1];
    if i < |trace| - 1 {
      forall j: nat | j < |init| ensures WritesReport(trace, j) <==> WritesReport(init, j) {
        WritesReportPrefix(trace, j);
      }
      LastReportWins(init, i);
      assert !WritesReport(trace, |trace| - 1);
    }
  }

  // Once the row exists, some statement wrote metricsReport last.
  lemma {:induction false} LastReportExists(trace: seq<Event>) returns (i: nat)
    requires RowAfter(trace).Some?
    ensures IsLastReport(trace, i)
  {
    var n := |trace| - 1;
    if WritesReport(trace, n) {
      i := n;
    } else {
      i := LastReportExists(trace[..n]);
      forall j: nat | j < n ensures WritesReport(trace, j) <==> WritesReport(trace[..n], j) {
        WritesReportPrefix(trace, j);
      }
    }
  }

  lemma {:induction false} Snoc(trace: seq<Event>, e: Event)
    ensures RowAfter(trace + [e]) == OnRow(RowAfter(trace), e)
    ensures Upserts(trace + [e]) == Upserts(trace) + if e.Upsert? then [e.chain] else []
    ensures LiveProbes(trace + [e]) == LiveProbes(trace) + if e.Probe? && Upserts(trace) != [] then [e.probe] else []
  {
    assert (trace + [e])[..|trace|] == trace;
  }

  // The claim that neither writer touches the other's data fails for this one
  // column.  After any history of an account, one more sync and one more probe
  // can be swapped exactly when the row exists and the sync has no report, the
  // probe overflows, or both reports are equal.  If the row exists, nothing but
  // the report can differ, and the later statement's report is kept.
  lemma {:induction false} ReportIsNotIndependent(trace: seq<Event>, u: Event, v: Event)
    requires u.Upsert? && v.Probe?
    ensures var before := RowAfter(trace);
            var probeLast, syncLast := RowAfter(trace + [u] + [v]), RowAfter(trace + [v] + [u]);
            && (probeLast == syncLast <==>
                  before.Some? && (|| u.chain.metricsReport.None?
                                   || ProbeOverflows(before.value, v.probe)
                                   || u.chain.metricsReport == v.probe.metricsReport))
            && (before.Some? && probeLast != syncLast ==>
                  && probeLast.Some? && syncLast.Some?
                  && probeLast.value.metricsReport == v.probe.metricsReport
                  && syncLast.value.metricsReport == u.chain.metricsReport
                  && probeLast.value == syncLast.value.(metricsReport := v.probe.metricsReport))
  {
    Snoc(trace, u);
    Snoc(trace, v);
    Snoc(trace + [u], v);
    Snoc(trace + [v], u);
  }

  // ---- Counters, versions and availability ----

  // The number of failed probes since the last successful one.
  function FailuresSinceSuccess(probes: seq<ProbeRecord>): nat {
    if probes == [] || probes[|probes| - 1].available then 0
    else 1 + FailuresSinceSuccess(probes[..|probes| - 1])
  }

  // failedProbeCounter counts the failed probes since the last success, or
  // since the row was created, up to the INTEGER limit.
  lemma {:induction false} CounterCountsFailures(probes: seq<ProbeRecord>)
    ensures var n := FailuresSinceSuccess(probes);
            ProbeOnly(probes).failedProbeCounter == if n <= MAX_INTEGER then n else MAX_INTEGER
  {
    if probes != [] {
      CounterCountsFailures(probes[..|probes| - 1]);
    }
  }

  // probeSupernodes stores the time of the probe as the check time, and the
  // version fetchStatus reported, which is empty when it failed.
  ghost predicate FromProbeLoop(p: ProbeRecord) {
    p.lastStatusCheck == Some(p.probeTime) && (p.available || p.actualVersion == "")
  }

  ghost predicate AllFromProbeLoop(probes: seq<ProbeRecord>) {
    forall i :: 0 <= i < |probes| ==> FromProbeLoop(probes[i])
  }

  // What every reachable row satisfies.
  ghost predicate ProbeInvariant(c: ProbeColumns) {
    && 0 <= c.failedProbeCounter <= MAX_INTEGER
    && (c.isStatusApiAvailable ==>
          c.failedProbeCounter == 0 && c.lastStatusCheck.Some? && c.lastStatusCheck == c.lastSuccessfulProbe)
    && (!c.isStatusApiAvailable ==> c.failedProbeCounter > 0 || c.lastStatusCheck.None?)
    && c.lastKnownActualVersion == NullIfEmpty(Some(c.actualVersion))
  }

  lemma {:induction false} ProbeInvariantHolds(probes: seq<ProbeRecord>)
    requires AllFromProbeLoop(probes)
    ensures ProbeInvariant(ProbeOnly(probes))
  {
    if probes != [] {
      ProbeInvariantHolds(probes[..|probes| - 1]);
      assert FromProbeLoop(probes[|probes| - 1]);
    }
  }

  // The version columns stay equal because failed probes carry no version: a
  // probe that writes the row keeps them equal exactly when it succeeded,
  // carries no version, or repeats the known one.
  lemma VersionsStayEqualIff(row: Row, p: ProbeRecord)
    requires ProbeInvariant(ProbeHalf(row)) && !ProbeOverflows(row, p)
    ensures var row' := ProbeUpdated(row, p);
            (row'.lastKnownActualVersion == NullIfEmpty(Some(row'.actualVersion))) <==>
              (p.available || p.actualVersion == "" || p.actualVersion == row.actualVersion)
  {
  }

  // ---- Reachable rows ----

  // Statements as syncSupernodes and probeSupernodes issue them.
  ghost predicate FromLoops(e: Event) {
    match e
    case Upsert(_, r) => exists m, n, h :: r.metricsReport == Some(ChainReport(m, n, h))
    case Probe(_, p) => FromProbeLoop(p) && exists a, x, b, y, s :: p.metricsReport == Some(ProbeReport(a, x, b, y, s))
  }

  ghost predicate SystemTrace(trace: seq<Event>) {
    forall i :: 0 <= i < |trace| ==> FromLoops(trace[i])
  }

  lemma {:induction false} LiveProbesFromLoop(trace: seq<Event>)
    requires SystemTrace(trace)
    ensures AllFromProbeLoop(LiveProbes(trace))
  {
    if trace != [] {
      LiveProbesFromLoop(trace[..|trace| - 1]);
      assert FromLoops(trace[|trace| - 1]);
    }
  }

  lemma {:induction false} EventsFromLoops(trace: seq<Event>, account: string)
    requires SystemTrace(trace)
    ensures SystemTrace(EventsOf(trace, account))
  {
    if trace != [] {
      EventsFromLoops(trace[..|trace| - 1], account);
      assert FromLoops(trace[|trace| - 1]);
    }
  }

  lemma {:induction false} ReachableRow(trace: seq<Event>)
    requires SystemTrace(trace) && RowAfter(trace).Some?
    ensures ProbeInvariant(ProbeHalf(RowAfter(trace).value))
  {
    HalvesAreIndependent(trace);
    LiveProbesFromLoop(trace);
    ProbeInvariantHolds(LiveProbes(trace));
  }

  // Every row of every reachable table satisfies the invariant.
  lemma {:induction false} ReachableTable(trace: seq<Event>, account: string)
    requires SystemTrace(trace) && account in TableAfter(trace)
    ensures ProbeInvariant(ProbeHalf(TableAfter(trace)[account]))
  {
    RowsAreIndependent(trace, account);
    EventsFromLoops(trace, account);
    ReachableRow(EventsOf(trace, account));
  }

  // The counter of a row counts the failed probes of that account since its
  // last successful one, however many probe loops run concurrently.
  lemma {:induction false} CounterOfTable(trace: seq<Event>, account: string)
    requires account in TableAfter(trace)
    ensures var n := FailuresSinceSuccess(LiveProbes(EventsOf(trace, account)));
            TableAfter(trace)[account].failedProbeCounter == if n <= MAX_INTEGER then n else MAX_INTEGER
  {
    RowsAreIndependent(trace, account);
    HalvesAreIndependent(EventsOf(trace, account));
    CounterCountsFailures(LiveProbes(EventsOf(trace, account)));
  }
}
