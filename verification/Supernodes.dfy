// The supernodes table and its two writers (internal/db/db.go, UpsertSupernode
// and UpdateSupernodeProbeData), as syncSupernodes and probeSupernodes call
// them (internal/background/scheduler.go).
module Supernodes {
  import opened Sql

  // One row.  currentState stands for the plain chain columns, hardware for
  // the plain probe columns.
  datatype Row = Row(
    validatorMoniker: string,
    currentState: string,
    ipAddress: string,
    actualVersion: string,
    hardware: Hardware,
    lastStatusCheck: Option<int>,
    isStatusApiAvailable: bool,
    metricsReport: Option<Json>,
    lastSuccessfulProbe: Option<int>,
    failedProbeCounter: int,
    lastKnownActualVersion: Option<string>)

  datatype Hardware = Hardware(
    cpuCores: Option<int>, storageTotalBytes: Option<int>, storageUsedBytes: Option<int>, p2pRecords: Option<int>)

  const NO_HARDWARE := Hardware(None, None, None, None)

  // What the chain sync stores.
  datatype ChainRecord = ChainRecord(
    validatorMoniker: string, currentState: string, ipAddress: string, metricsReport: Option<Json>)

  // What a probe stores.
  datatype ProbeRecord = ProbeRecord(
    actualVersion: string, hardware: Hardware, lastStatusCheck: Option<int>, available: bool,
    metricsReport: Option<Json>, probeTime: int)

  // The row the INSERT branch creates; probe columns are NULL or default.
  function Inserted(r: ChainRecord): Row {
    Row(r.validatorMoniker, r.currentState, r.ipAddress, "", NO_HARDWARE, None, false, r.metricsReport, None, 0, None)
  }

  // The ON CONFLICT branch.
  function ChainUpdated(row: Row, r: ChainRecord): Row {
    row.(validatorMoniker := if r.validatorMoniker != "" then r.validatorMoniker else row.validatorMoniker,
         currentState := r.currentState,
         ipAddress := r.ipAddress,
         metricsReport := Coalesce(r.metricsReport, row.metricsReport))
  }

  // A failed probe of a row whose counter is at the INTEGER limit overflows:
  // the statement fails and writes nothing.
  predicate ProbeOverflows(row: Row, p: ProbeRecord) {
    !p.available && row.failedProbeCounter >= MAX_INTEGER
  }

  function ProbeUpdated(row: Row, p: ProbeRecord): Row {
    if ProbeOverflows(row, p) then row
    else
      var common := row.(
        actualVersion := if p.actualVersion != "" then p.actualVersion else row.actualVersion,
        hardware := p.hardware,
        lastStatusCheck := p.lastStatusCheck,
        isStatusApiAvailable := p.available,
        metricsReport := p.metricsReport);
      if p.available then
        common.(lastSuccessfulProbe := Some(p.probeTime),
                failedProbeCounter := 0,
                lastKnownActualVersion := Coalesce(NullIfEmpty(Some(p.actualVersion)), row.lastKnownActualVersion))
      else
        common.(failedProbeCounter := row.failedProbeCounter + 1)
  }

  type Table = map<string, Row>

  class SupernodeStore {
    var rows: Table

    constructor ()
      ensures rows == map[]
    {
      rows := map[];
    }

    method UpsertSupernode(account: string, r: ChainRecord)
      modifies this
      ensures rows == old(rows)[account :=
                if account in old(rows) then ChainUpdated(old(rows)[account], r) else Inserted(r)]
      ensures rows.Keys == old(rows).Keys + {account}
      ensures forall other :: other in old(rows) && other != account ==> rows[other] == old(rows)[other]
      ensures rows[account].currentState == r.currentState && rows[account].ipAddress == r.ipAddress
      ensures account in old(rows) && r.metricsReport.None? ==>
                rows[account].metricsReport == old(rows)[account].metricsReport
    {
      if account in rows {
        var row := rows[account];
        if r.validatorMoniker != "" {
          row := row.(validatorMoniker := r.validatorMoniker);
        }
        row := row.(currentState := r.currentState, ipAddress := r.ipAddress);
        if r.metricsReport.Some? {
          row := row.(metricsReport := r.metricsReport);
        }
        rows := rows[account := row];
      } else {
        rows := rows[account := Inserted(r)];
      }
    }

    // Updates nothing when the account is unknown; fails on counter overflow.
    method UpdateSupernodeProbeData(account: string, p: ProbeRecord) returns (ok: bool)
      modifies this
      ensures account !in old(rows) ==> ok && rows == old(rows)
      ensures account in old(rows) ==>
                && ok == !ProbeOverflows(old(rows)[account], p)
                && rows == old(rows)[account := ProbeUpdated(old(rows)[account], p)]
      ensures rows.Keys == old(rows).Keys
      ensures forall other :: other in old(rows) && other != account ==> rows[other] == old(rows)[other]
      ensures ok && account in old(rows) ==>
                rows[account].isStatusApiAvailable == p.available && rows[account].hardware == p.hardware
    {
      if account !in rows {
        return true;
      }
      var row := rows[account];
      if !p.available && row.failedProbeCounter >= MAX_INTEGER {
        assert rows == rows[account := row];
        return false;
      }
      if p.actualVersion != "" {
        row := row.(actualVersion := p.actualVersion);
      }
      row := row.(hardware := p.hardware, lastStatusCheck := p.lastStatusCheck,
                  isStatusApiAvailable := p.available, metricsReport := p.metricsReport);
      if p.available {
        row := row.(lastSuccessfulProbe := Some(p.probeTime), failedProbeCounter := 0);
        if p.actualVersion != "" {
          row := row.(lastKnownActualVersion := Some(p.actualVersion));
        }
      } else {
        row := row.(failedProbeCounter := row.failedProbeCounter + 1);
      }
      rows := rows[account := row];
      return true;
    }
  }

  // ---- What the two loops send ----

  // toJSONB(sn.Metrics): an object that never has a "ports" key.
  function ChainReport(metrics: Json, reportCount: string, height: string): Json {
    JObject(map["metrics" := metrics, "report_count" := JText(reportCount), "height" := JText(height)])
  }

  function ProbeReport(port1: bool, port1Num: string, p2p: bool, p2pPort: string, status: Json): Json {
    JObject(map["ports" := JObject(map["port1" := JBool(port1), "port1Num" := JOther(port1Num),
                                       "p2p" := JBool(p2p), "p2pPort" := JOther(p2pPort)]),
                "status" := status])
  }

  // The result of fetchStatus: everything is zero unless the node answered.
  datatype StatusSummary = StatusSummary(available: bool, version: string, hardware: Hardware)

  ghost predicate IsFetched(s: StatusSummary) {
    s.available || s.version == ""
  }

  // ---- Statements on the whole table ----

  datatype Event =
    | Upsert(account: string, chain: ChainRecord)
    | Probe(account: string, probe: ProbeRecord)

  // One statement, on the row of its account.
  function OnRow(row: Option<Row>, e: Event): Option<Row> {
    match e
    case Upsert(_, r) => Some(if row.Some? then ChainUpdated(row.value, r) else Inserted(r))
    case Probe(_, p) => if row.Some? then Some(ProbeUpdated(row.value, p)) else None
  }

  function RowIn(t: Table, account: string): Option<Row> {
    if account in t then Some(t[account]) else None
  }

  function OnTable(t: Table, e: Event): Table {
    var row := OnRow(RowIn(t, e.account), e);
    if row.Some? then t[e.account := row.value] else t
  }

  // Any interleaving of chain syncs, probe loops and manual runs is a trace.
  function TableAfter(trace: seq<Event>): Table {
    if trace == [] then map[] else OnTable(TableAfter(trace[..|trace| - 1]), trace[|trace| - 1])
  }

  function RowAfter(trace: seq<Event>): Option<Row> {
    if trace == [] then None else OnRow(RowAfter(trace[..|trace| - 1]), trace[|trace| - 1])
  }

  function EventsOf(trace: seq<Event>, account: string): seq<Event> {
    if trace == [] then []
    else
      var last := trace[|trace| - 1];
      EventsOf(trace[..|trace| - 1], account) + if last.account == account then [last] else []
  }

  // A row depends only on the statements for its own account.
  lemma {:induction false} RowsAreIndependent(trace: seq<Event>, account: string)
    ensures RowIn(TableAfter(trace), account) == RowAfter(EventsOf(trace, account))
  {
    if trace != [] {
      var init, last := trace[..|trace| - 1], trace[|trace| - 1];
      RowsAreIndependent(init, account);
      if last.account == account {
        var mine := EventsOf(init, account);
        assert (mine + [last])[..|mine|] == mine;
      } else {
        assert EventsOf(trace, account) == EventsOf(init, account);
      }
    }
  }
}
