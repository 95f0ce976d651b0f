// The two loops that write supernode rows (internal/background/scheduler.go,
// syncSupernodes and probeSupernodes).
module SyncLoops {
  import opened Sql
  import opened Supernodes
  import opened SupernodeTraces
  import opened Heights
  import opened Hosts

  // The statements of a trace, run on a table.
  function Applied(t: Table, trace: seq<Event>): Table {
    if trace == [] then t else OnTable(Applied(t, trace[..|trace| - 1]), trace[|trace| - 1])
  }

  lemma AppliedMore(t: Table, before: seq<Event>, more: seq<Event>)
    requires |more| <= 1
    ensures Applied(t, before + more) == if more == [] then Applied(t, before) else OnTable(Applied(t, before), more[0])
  {
    if more == [] {
      assert before + more == before;
    } else {
      assert (before + more)[..|before|] == before;
    }
  }

  // What a loop adds to a reachable table is again reachable.
  lemma {:induction false} LoopsExtendTraces(before: seq<Event>, trace: seq<Event>)
    requires SystemTrace(before) && SystemTrace(trace)
    ensures SystemTrace(before + trace)
    ensures Applied(TableAfter(before), trace) == TableAfter(before + trace)
    decreases |trace|
  {
    if trace == [] {
      assert before + trace == before;
    } else {
      var init := trace[..|trace| - 1];
      LoopsExtendTraces(before, init);
      assert (before + trace)[..|before + trace| - 1] == before + init;
    }
  }

  // ---- Chain sync ----

  datatype ChainSupernode = ChainSupernode(
    account: string, validator: string, states: seq<Entry>, addresses: seq<Entry>,
    metrics: Json, reportCount: string, reportHeight: string)

  ghost function StateOf(sn: ChainSupernode): string {
    if sn.states == [] then "SUPERNODE_STATE_UNKNOWN" else Latest(sn.states).payload
  }

  ghost function AddressOf(sn: ChainSupernode): string {
    if sn.addresses == [] then "" else Latest(sn.addresses).payload
  }

  ghost function SyncEvent(sn: ChainSupernode, monikers: map<string, string>): Event {
    Upsert(sn.account,
           ChainRecord(if sn.validator in monikers then monikers[sn.validator] else "",
                       StateOf(sn), AddressOf(sn),
                       Some(ChainReport(sn.metrics, sn.reportCount, sn.reportHeight))))
  }

  // One upsert per supernode, except where the write fails.
  ghost function SyncEvents(sns: seq<ChainSupernode>, monikers: map<string, string>, lands: nat -> bool): seq<Event> {
    if sns == [] then []
    else
      var n := |sns| - 1;
      SyncEvents(sns[..n], monikers, lands) + if lands(n) then [SyncEvent(sns[n], monikers)] else []
  }

  // The inner loop over one page of the chain's listing.
  method SyncPage(store: SupernodeStore, sns: seq<ChainSupernode>, monikers: map<string, string>, lands: nat -> bool)
    modifies store
    ensures store.rows == Applied(old(store.rows), SyncEvents(sns, monikers, lands))
  {
    for i := 0 to |sns|
      invariant store.rows == Applied(old(store.rows), SyncEvents(sns[..i], monikers, lands))
    {
      assert sns[..i + 1][..i] == sns[..i];
      AppliedMore(old(store.rows), SyncEvents(sns[..i], monikers, lands),
                  if lands(i) then [SyncEvent(sns[i], monikers)] else []);
      if lands(i) {
        SyncOne(store, sns[i], monikers);
      } else {
        // The statement fails; the supernode is logged and skipped.
      }
    }
    assert sns[..|sns|] == sns;
  }

  method SyncOne(store: SupernodeStore, sn: ChainSupernode, monikers: map<string, string>)
    modifies store
    ensures store.rows == OnTable(old(store.rows), SyncEvent(sn, monikers))
  {
    var ip := LatestIPAddress(sn.addresses);
    var state, _ := LatestState(sn.states);
    var mon := if sn.validator in monikers then monikers[sn.validator] else "";
    var rec := ChainRecord(mon, state, ip, Some(ChainReport(sn.metrics, sn.reportCount, sn.reportHeight)));
    store.UpsertSupernode(sn.account, rec);
  }

  lemma {:induction false} SyncEventsAreSystem(sns: seq<ChainSupernode>, monikers: map<string, string>,
        lands: nat -> bool)
    ensures SystemTrace(SyncEvents(sns, monikers, lands))
  {
    if sns != [] {
      SyncEventsAreSystem(sns[..|sns| - 1], monikers, lands);
      var sn := sns[|sns| - 1];
      assert SyncEvent(sn, monikers).chain.metricsReport
          == Some(ChainReport(sn.metrics, sn.reportCount, sn.reportHeight));
      assert FromLoops(SyncEvent(sn, monikers));
    }
  }

  // ---- Probe loop ----

  datatype Target = Target(account: string, ipAddress: string, p2pPort: int)

  // The outside world: hostPort trims and splits an address and parses its
  // port, opens dials, fetch asks the status API, clock gives the time of the
  // i-th probe; the last two render numbers and the status for the report.
  datatype Network = Network(
    hostPort: string -> Option<(string, int)>,
    isIP: string -> bool,
    opens: (string, int) -> bool,
    fetch: string -> StatusSummary,
    clock: nat -> int,
    itoa: int -> string,
    statusJson: StatusSummary -> Json)

  // A failed fetch reports the zero summary.
  ghost predicate HonestFetch(net: Network) {
    forall h :: IsFetched(net.fetch(h))
  }

  // The address has a host and a non-zero port, and the host is an IP or a
  // dotted name.
  ghost predicate Probeable(net: Network, t: Target) {
    && t.ipAddress != ""
    && net.hostPort(t.ipAddress).Some?
    && net.hostPort(t.ipAddress).value.1 != 0
    && (net.isIP(net.hostPort(t.ipAddress).value.0) || IsDottedName(net.hostPort(t.ipAddress).value.0))
  }

  const DEFAULT_P2P_PORT := 4445

  function P2pPort(t: Target): int {
    if t.p2pPort == 0 then DEFAULT_P2P_PORT else t.p2pPort
  }

  function ProbeEvent(net: Network, t: Target, i: nat): Event
    requires net.hostPort(t.ipAddress).Some?
  {
    var (host, port) := net.hostPort(t.ipAddress).value;
    var status := net.fetch(host);
    var report := ProbeReport(net.opens(host, port), net.itoa(port), net.opens(host, P2pPort(t)), net.itoa(P2pPort(t)),
                              net.statusJson(status));
    Probe(t.account,
          ProbeRecord(status.version, status.hardware, Some(net.clock(i)), status.available, Some(report),
                      net.clock(i)))
  }

  // What target i adds to the trace.
  ghost function ProbeOutcome(net: Network, t: Target, i: nat, lands: bool): seq<Event> {
    if Probeable(net, t) && lands then [ProbeEvent(net, t, i)] else []
  }

  // One probe per usable target, in order, except where the write fails; the
  // other targets are skipped.
  ghost function ProbeEvents(net: Network, targets: seq<Target>, lands: nat -> bool): seq<Event> {
    if targets == [] then []
    else
      var n := |targets| - 1;
      ProbeEvents(net, targets[..n], lands) + ProbeOutcome(net, targets[n], n, lands(n))
  }

  method ProbeSupernodes(store: SupernodeStore, targets: seq<Target>, net: Network, lands: nat -> bool)
    modifies store
    ensures store.rows == Applied(old(store.rows), ProbeEvents(net, targets, lands))
  {
    for i := 0 to |targets|
      invariant store.rows == Applied(old(store.rows), ProbeEvents(net, targets[..i], lands))
    {
      assert targets[..i + 1][..i] == targets[..i];
      AppliedMore(old(store.rows), ProbeEvents(net, targets[..i], lands),
                  ProbeOutcome(net, targets[i], i, lands(i)));
      ProbeTarget(store, targets[i], net, i, lands(i));
    }
    assert targets[..|targets|] == targets;
  }

  // The body of the loop: a target without a usable address is skipped.
  method ProbeTarget(store: SupernodeStore, t: Target, net: Network, i: nat, reachable: bool)
    modifies store
    ensures store.rows == if Probeable(net, t) && reachable then OnTable(old(store.rows), ProbeEvent(net, t, i))
                          else old(store.rows)
  {
    if t.ipAddress == "" {
      return;
    }
    var address := net.hostPort(t.ipAddress);
    if address.None? || address.value.1 == 0 {
      return;
    }
    var host, port1 := address.value.0, address.value.1;
    var valid := IsValidHost(host, net.isIP);
    if !valid {
      return;
    }
    ProbeOne(store, t, net, i, host, port1, reachable);
  }

  // Dials, fetches the status and writes the result; a write that the database
  // does not execute is logged.
  method ProbeOne(store: SupernodeStore, t: Target, net: Network, i: nat, host: string, port1: int, reachable: bool)
    requires net.hostPort(t.ipAddress) == Some((host, port1))
    modifies store
    ensures store.rows == if reachable then OnTable(old(store.rows), ProbeEvent(net, t, i)) else old(store.rows)
  {
    var openPort1 := net.opens(host, port1);
    var p2pPort := t.p2pPort;
    if p2pPort == 0 {
      p2pPort := 4445;
    }
    var openP2P := net.opens(host, p2pPort);
    var status := net.fetch(host);
    var now := net.clock(i);
    var report := ProbeReport(openPort1, net.itoa(port1), openP2P, net.itoa(p2pPort), net.statusJson(status));
    var record := ProbeRecord(status.version, status.hardware, Some(now), status.available, Some(report), now);
    if reachable {
      var _ := store.UpdateSupernodeProbeData(t.account, record);
    }
  }

  lemma ProbeEventIsSystem(net: Network, t: Target, i: nat)
    requires HonestFetch(net) && net.hostPort(t.ipAddress).Some?
    ensures FromLoops(ProbeEvent(net, t, i))
  {
    var (host, port) := net.hostPort(t.ipAddress).value;
    assert IsFetched(net.fetch(host));
    assert ProbeEvent(net, t, i).probe.metricsReport
        == Some(ProbeReport(net.opens(host, port), net.itoa(port), net.opens(host, P2pPort(t)), net.itoa(P2pPort(t)),
                            net.statusJson(net.fetch(host))));
  }

  lemma {:induction false} ProbeEventsAreSystem(net: Network, targets: seq<Target>, lands: nat -> bool)
    requires HonestFetch(net)
    ensures SystemTrace(ProbeEvents(net, targets, lands))
  {
    if targets != [] {
      var n := |targets| - 1;
      ProbeEventsAreSystem(net, targets[..n], lands);
      if Probeable(net, targets[n]) {
        ProbeEventIsSystem(net, targets[n], n);
      }
    }
  }
}
