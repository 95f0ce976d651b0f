// What the two supernode loops leave in the table, in terms of what the chain
// and the probed nodes answered.
module LoopResults {
  import opened Sql
  import opened Supernodes
  import opened SupernodeTraces
  import opened SupernodeListing
  import opened Heights
  import opened Hosts
  import opened SyncLoops

  lemma OtherRowsStay(t: Table, e: Event, account: string)
    requires e.account != account
    ensures RowIn(OnTable(t, e), account) == RowIn(t, account)
  {
  }

  // ---- Probe loop ----

  // The table after the first n targets.
  ghost function AfterProbes(t: Table, net: Network, targets: seq<Target>, lands: nat -> bool, n: nat): Table
    requires n <= |targets|
  {
    Applied(t, ProbeEvents(net, targets[..n], lands))
  }

  lemma OneMoreProbe(t: Table, net: Network, targets: seq<Target>, lands: nat -> bool, n: nat)
    requires n < |targets|
    ensures var before := AfterProbes(t, net, targets, lands, n);
            AfterProbes(t, net, targets, lands, n + 1) ==
              if Probeable(net, targets[n]) && lands(n) then OnTable(before, ProbeEvent(net, targets[n], n)) else before
  {
    assert targets[..n + 1][..n] == targets[..n];
    AppliedMore(t, ProbeEvents(net, targets[..n], lands), ProbeOutcome(net, targets[n], n, lands(n)));
  }

  // Targets i to n do not write the account's row.
  lemma {:induction false} LaterProbesElsewhere(t: Table, net: Network, targets: seq<Target>, lands: nat -> bool,
        i: nat, n: nat, account: string)
    requires i <= n <= |targets|
    requires forall j: nat :: i <= j < n && targets[j].account == account ==> !(Probeable(net, targets[j]) && lands(j))
    ensures RowIn(AfterProbes(t, net, targets, lands, n), account)
         == RowIn(AfterProbes(t, net, targets, lands, i), account)
  {
    if i < n {
      LaterProbesElsewhere(t, net, targets, lands, i, n - 1, account);
      OneMoreProbe(t, net, targets, lands, n - 1);
      if Probeable(net, targets[n - 1]) && lands(n - 1) {
        OtherRowsStay(AfterProbes(t, net, targets, lands, n - 1), ProbeEvent(net, targets[n - 1], n - 1), account);
      }
    }
  }

  lemma {:induction false} ProbesKeepRows(t: Table, net: Network, targets: seq<Target>, lands: nat -> bool, n: nat,
        account: string)
    requires n <= |targets| && account in t
    ensures account in AfterProbes(t, net, targets, lands, n)
  {
    if n > 0 {
      ProbesKeepRows(t, net, targets, lands, n - 1, account);
      OneMoreProbe(t, net, targets, lands, n - 1);
    }
  }

  // The address of a target that can be probed: a host that is an IP or a
  // dotted name, and a port other than 0.
  ghost predicate HasAddress(net: Network, t: Target, host: string, port: int) {
    && t.ipAddress != "" && net.hostPort(t.ipAddress) == Some((host, port)) && port != 0
    && (net.isIP(host) || IsDottedName(host))
  }

  // The row of an account after the loop, if target i is its last one with an
  // address and a landed write: it says what this probe found.
  lemma {:induction false} ProbedRow(t: Table, net: Network, targets: seq<Target>, lands: nat -> bool, i: nat,
        host: string, port: int)
    requires i < |targets| && targets[i].account in t
    requires HasAddress(net, targets[i], host, port) && lands(i)
    requires forall j: nat, h, p :: i < j < |targets| && targets[j].account == targets[i].account && lands(j) ==>
               !HasAddress(net, targets[j], h, p)
    ensures var before := AfterProbes(t, net, targets, lands, i);
            var after := AfterProbes(t, net, targets, lands, |targets|);
            var account, fetched := targets[i].account, net.fetch(host);
            && account in before && account in after
            && var prior, row := before[account], after[account];
            && (!fetched.available && prior.failedProbeCounter >= 0x7fff_ffff ==> row == prior)
            && (fetched.available || prior.failedProbeCounter < 0x7fff_ffff ==>
                  && IsProbed(net, prior, row, fetched, i)
                  && Answers(net, targets[i], row, host, port) && ProbeReported(net, targets[i], row, host, port))
  {
    var account := targets[i].account;
    forall j: nat | i < j < |targets| && targets[j].account == account
      ensures !(Probeable(net, targets[j]) && lands(j))
    {
      if Probeable(net, targets[j]) {
        var (h, p) := net.hostPort(targets[j].ipAddress).value;
        assert HasAddress(net, targets[j], h, p);
      }
    }
    LaterProbesElsewhere(t, net, targets, lands, i + 1, |targets|, account);
    ProbesKeepRows(t, net, targets, lands, i, account);
    OneMoreProbe(t, net, targets, lands, i);
    ProbeStores(net, targets[i], i, AfterProbes(t, net, targets, lands, i)[account], host, port);
  }

  // The columns of the row after a probe with this result, the i-th in the
  // loop; the chain columns are untouched.
  ghost predicate IsProbed(net: Network, prior: Row, row: Row, fetched: StatusSummary, i: nat) {
    && row.isStatusApiAvailable == fetched.available
    && row.failedProbeCounter == (if fetched.available then 0 else prior.failedProbeCounter + 1)
    && row.hardware == fetched.hardware
    && row.actualVersion == (if fetched.version == "" then prior.actualVersion else fetched.version)
    && row.lastKnownActualVersion == (if fetched.available && fetched.version != "" then Some(fetched.version)
                                      else prior.lastKnownActualVersion)
    && row.lastStatusCheck == Some(net.clock(i))
    && row.lastSuccessfulProbe == (if fetched.available then Some(net.clock(i)) else prior.lastSuccessfulProbe)
    && row.validatorMoniker == prior.validatorMoniker
    && row.currentState == prior.currentState && row.ipAddress == prior.ipAddress
  }

  // The node is listed as available exactly when its status API answered and
  // both ports are open, and as unavailable otherwise.
  ghost predicate Answers(net: Network, t: Target, row: Row, host: string, port: int) {
    var up := && net.fetch(host).available && net.opens(host, port)
              && net.opens(host, if t.p2pPort == 0 then 4445 else t.p2pPort);
    (IsAvailable(row) <==> up) && (IsUnavailable(row) <==> !up)
  }

  // The report also tells which ports were tried and what the node answered.
  ghost predicate ProbeReported(net: Network, t: Target, row: Row, host: string, port: int) {
    && PortText(row, "port1Num") == Some(net.itoa(port))
    && PortText(row, "p2pPort") == Some(net.itoa(if t.p2pPort == 0 then 4445 else t.p2pPort))
    && Arrow(row.metricsReport, "status") == Some(net.statusJson(net.fetch(host)))
  }

  lemma ProbeReportIs(net: Network, t: Target, row: Row, host: string, port: int, a: bool, b: bool)
    requires row.metricsReport == Some(ProbeReport(a, net.itoa(port), b, net.itoa(P2pPort(t)),
                                                   net.statusJson(net.fetch(host))))
    ensures ProbeReported(net, t, row, host, port)
  {
    var ports := JObject(map["port1" := JBool(a), "port1Num" := JOther(net.itoa(port)),
                             "p2p" := JBool(b), "p2pPort" := JOther(net.itoa(P2pPort(t)))]);
    assert Arrow(row.metricsReport, "ports") == Some(ports);
  }

  lemma ProbeStores(net: Network, t: Target, i: nat, prior: Row, host: string, port: int)
    requires HasAddress(net, t, host, port)
    ensures var row, fetched := ProbeUpdated(prior, ProbeEvent(net, t, i).probe), net.fetch(host);
            if !fetched.available && prior.failedProbeCounter >= 0x7fff_ffff then row == prior
            else && IsProbed(net, prior, row, fetched, i)
                 && Answers(net, t, row, host, port) && ProbeReported(net, t, row, host, port)
  {
    var row, fetched := ProbeUpdated(prior, ProbeEvent(net, t, i).probe), net.fetch(host);
    if fetched.available || prior.failedProbeCounter < 0x7fff_ffff {
      ProbeReportHasPorts(row, net.opens(host, port), net.itoa(port), net.opens(host, P2pPort(t)), net.itoa(P2pPort(t)),
                          net.statusJson(fetched));
      ProbeReportIs(net, t, row, host, port, net.opens(host, port), net.opens(host, P2pPort(t)));
    }
  }

  // An account none of whose targets has an address and a landed write keeps
  // its row.
  lemma {:induction false} UnprobedRow(t: Table, net: Network, targets: seq<Target>, lands: nat -> bool,
        account: string)
    requires forall j: nat, h, p :: j < |targets| && targets[j].account == account && lands(j) ==>
               !HasAddress(net, targets[j], h, p)
    ensures RowIn(AfterProbes(t, net, targets, lands, |targets|), account) == RowIn(t, account)
  {
    forall j: nat | 0 <= j < |targets| && targets[j].account == account
      ensures !(Probeable(net, targets[j]) && lands(j))
    {
      if Probeable(net, targets[j]) {
        var (h, p) := net.hostPort(targets[j].ipAddress).value;
        assert HasAddress(net, targets[j], h, p);
      }
    }
    LaterProbesElsewhere(t, net, targets, lands, 0, |targets|, account);
    assert targets[..0] == [];
  }

  // ---- Chain sync ----

  // The table after the first n supernodes of a page.
  ghost function AfterSyncs(t: Table, sns: seq<ChainSupernode>, monikers: map<string, string>, lands: nat -> bool,
                            n: nat): Table
    requires n <= |sns|
  {
    Applied(t, SyncEvents(sns[..n], monikers, lands))
  }

  lemma OneMoreSync(t: Table, sns: seq<ChainSupernode>, monikers: map<string, string>, lands: nat -> bool, n: nat)
    requires n < |sns|
    ensures var before := AfterSyncs(t, sns, monikers, lands, n);
            AfterSyncs(t, sns, monikers, lands, n + 1) ==
              if lands(n) then OnTable(before, SyncEvent(sns[n], monikers)) else before
  {
    assert sns[..n + 1][..n] == sns[..n];
    AppliedMore(t, SyncEvents(sns[..n], monikers, lands), if lands(n) then [SyncEvent(sns[n], monikers)] else []);
  }

  lemma {:induction false} LaterSyncsElsewhere(t: Table, sns: seq<ChainSupernode>, monikers: map<string, string>,
        lands: nat -> bool, i: nat, n: nat, account: string)
    requires i <= n <= |sns|
    requires forall j: nat :: i <= j < n && sns[j].account == account ==> !lands(j)
    ensures RowIn(AfterSyncs(t, sns, monikers, lands, n), account)
         == RowIn(AfterSyncs(t, sns, monikers, lands, i), account)
  {
    if i < n {
      LaterSyncsElsewhere(t, sns, monikers, lands, i, n - 1, account);
      OneMoreSync(t, sns, monikers, lands, n - 1);
      if lands(n - 1) {
        OtherRowsStay(AfterSyncs(t, sns, monikers, lands, n - 1), SyncEvent(sns[n - 1], monikers), account);
      }
    }
  }

  // Entry k is the first of those with the greatest height.
  ghost predicate IsNewest(es: seq<Entry>, k: int) {
    && 0 <= k < |es|
    && (forall j :: 0 <= j < |es| ==> Height(es[j]) <= Height(es[k]))
    && (forall j :: 0 <= j < k ==> Height(es[j]) < Height(es[k]))
  }

  ghost predicate SyncReported(sn: ChainSupernode, report: Option<Json>) {
    && Arrow(report, "metrics") == Some(sn.metrics)
    && Arrow(report, "report_count") == Some(JText(sn.reportCount))
    && Arrow(report, "height") == Some(JText(sn.reportHeight))
    && Arrow(report, "ports") == None
  }

  lemma SyncReportIs(sn: ChainSupernode)
    ensures SyncReported(sn, Some(ChainReport(sn.metrics, sn.reportCount, sn.reportHeight)))
  {
  }

  // The columns of the row after the sync of a supernode; prior is the row from
  // before, if there was one.
  ghost predicate IsSynced(sn: ChainSupernode, monikers: map<string, string>, prior: Option<Row>, row: Row) {
    && (sn.states == [] ==> row.currentState == "SUPERNODE_STATE_UNKNOWN")
    && (forall k :: IsNewest(sn.states, k) ==> row.currentState == sn.states[k].payload)
    && (sn.addresses == [] ==> row.ipAddress == "")
    && (forall k :: IsNewest(sn.addresses, k) ==> row.ipAddress == sn.addresses[k].payload)
    && (sn.validator in monikers && monikers[sn.validator] != "" ==> row.validatorMoniker == monikers[sn.validator])
    && (sn.validator !in monikers || monikers[sn.validator] == "" ==>
          row.validatorMoniker == if prior.Some? then prior.value.validatorMoniker else "")
    && SyncReported(sn, row.metricsReport)
    && (prior.Some? ==> ProbeHalf(row) == ProbeHalf(prior.value))
    && (prior.None? ==> ProbeHalf(row) == ProbeColumns("", NO_HARDWARE, None, false, None, 0, None))
  }

  lemma NewestIsLatest(es: seq<Entry>, k: int)
    requires IsNewest(es, k)
    ensures Latest(es) == es[k]
  {
    LatestFacts(es, k);
    LatestIs(es, k);
  }

  lemma SyncedState(sn: ChainSupernode)
    ensures sn.states == [] ==> StateOf(sn) == "SUPERNODE_STATE_UNKNOWN"
    ensures forall k :: IsNewest(sn.states, k) ==> StateOf(sn) == sn.states[k].payload
  {
    forall k | IsNewest(sn.states, k) ensures StateOf(sn) == sn.states[k].payload {
      NewestIsLatest(sn.states, k);
    }
  }

  lemma SyncedAddress(sn: ChainSupernode)
    ensures sn.addresses == [] ==> AddressOf(sn) == ""
    ensures forall k :: IsNewest(sn.addresses, k) ==> AddressOf(sn) == sn.addresses[k].payload
  {
    forall k | IsNewest(sn.addresses, k) ensures AddressOf(sn) == sn.addresses[k].payload {
      NewestIsLatest(sn.addresses, k);
    }
  }

  lemma SyncedColumns(r: ChainRecord, prior: Option<Row>, account: string)
    requires r.metricsReport.Some?
    ensures var row := OnRow(prior, Upsert(account, r)).value;
            && row.currentState == r.currentState && row.ipAddress == r.ipAddress
            && row.metricsReport == r.metricsReport
            && (r.validatorMoniker != "" ==> row.validatorMoniker == r.validatorMoniker)
            && (r.validatorMoniker == "" ==>
                  row.validatorMoniker == if prior.Some? then prior.value.validatorMoniker else "")
            && (prior.Some? ==> ProbeHalf(row) == ProbeHalf(prior.value))
            && (prior.None? ==> ProbeHalf(row) == ProbeColumns("", NO_HARDWARE, None, false, None, 0, None))
  {
  }

  lemma SyncStores(sn: ChainSupernode, monikers: map<string, string>, prior: Option<Row>)
    ensures var row := OnRow(prior, SyncEvent(sn, monikers));
            row.Some? && IsSynced(sn, monikers, prior, row.value)
  {
    SyncedState(sn);
    SyncedAddress(sn);
    SyncedColumns(SyncEvent(sn, monikers).chain, prior, sn.account);
    SyncReportIs(sn);
  }

  // The row of an account after a page of the chain sync, if supernode i is its
  // last one with a landed write.
  lemma {:induction false} SyncedRow(t: Table, sns: seq<ChainSupernode>, monikers: map<string, string>,
        lands: nat -> bool, i: nat)
    requires i < |sns| && lands(i)
    requires forall j: nat :: i < j < |sns| && sns[j].account == sns[i].account ==> !lands(j)
    ensures var before := AfterSyncs(t, sns, monikers, lands, i);
            var after := AfterSyncs(t, sns, monikers, lands, |sns|);
            && sns[i].account in after
            && IsSynced(sns[i], monikers, RowIn(before, sns[i].account), after[sns[i].account])
  {
    var account := sns[i].account;
    LaterSyncsElsewhere(t, sns, monikers, lands, i + 1, |sns|, account);
    OneMoreSync(t, sns, monikers, lands, i);
    SyncStores(sns[i], monikers, RowIn(AfterSyncs(t, sns, monikers, lands, i), account));
    assert RowIn(AfterSyncs(t, sns, monikers, lands, i + 1), account)
        == OnRow(RowIn(AfterSyncs(t, sns, monikers, lands, i), account), SyncEvent(sns[i], monikers));
  }

  // The loops as methods end with these tables.
  lemma WholeLoops(t: Table, net: Network, targets: seq<Target>, sns: seq<ChainSupernode>,
        monikers: map<string, string>, lands: nat -> bool)
    ensures AfterProbes(t, net, targets, lands, |targets|) == Applied(t, ProbeEvents(net, targets, lands))
    ensures AfterSyncs(t, sns, monikers, lands, |sns|) == Applied(t, SyncEvents(sns, monikers, lands))
  {
    assert targets[..|targets|] == targets && sns[..|sns|] == sns;
  }
}
