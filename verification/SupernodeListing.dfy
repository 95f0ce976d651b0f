// Listing supernodes page by page and summing their hardware (internal/db/db.go,
// listSupernodeMetricsFiltered and GetAggregatedHardwareStats;
// internal/handlers/supernodes.go, ListSupernodesMetrics).
module SupernodeListing {
  import opened Sql
  import opened Supernodes
  import opened SupernodeTraces
  import opened Collections
  import opened Keyset
  import opened WhereClauses

  datatype Filter = Filter(
    currentState: string, chainState: Option<string>, status: string, version: Option<string>,
    minFailed: int, limit: int, cursorAccount: Option<string>)

  const STOPPED := "SUPERNODE_STATE_STOPPED"

  // ---- Port availability in three-valued logic ----

  // "metricsReport"->'ports'->>key
  function PortText(row: Row, key: string): Option<string> {
    ArrowText(Arrow(row.metricsReport, "ports"), key)
  }

  // The three conditions of status=available, joined by AND.
  function AvailableCond(row: Row): Tri {
    And3(FromBool(row.isStatusApiAvailable),
         And3(Eq3(PortText(row, "port1"), "true"), Eq3(PortText(row, "p2p"), "true")))
  }

  // The OR condition of status=unavailable.
  function UnavailableCond(row: Row): Tri {
    Or3(FromBool(!row.isStatusApiAvailable),
        Or3(Ne3(PortText(row, "port1"), "true"), Ne3(PortText(row, "p2p"), "true")))
  }

  predicate IsAvailable(row: Row) {
    AvailableCond(row) == Yes
  }

  predicate IsUnavailable(row: Row) {
    UnavailableCond(row) == Yes
  }

  // No row is both; a row is neither exactly when its status API is up and a
  // port result is missing while no port is reported closed.
  lemma AvailabilityTrichotomy(row: Row)
    ensures !(IsAvailable(row) && IsUnavailable(row))
    ensures !IsAvailable(row) && !IsUnavailable(row) <==>
              && row.isStatusApiAvailable
              && (PortText(row, "port1").None? || PortText(row, "p2p").None?)
              && (PortText(row, "port1").Some? ==> PortText(row, "port1").value == "true")
              && (PortText(row, "p2p").Some? ==> PortText(row, "p2p").value == "true")
  {
  }

  lemma ChainReportHasNoPorts(row: Row, m: Json, n: string, h: string, key: string)
    requires row.metricsReport == Some(ChainReport(m, n, h))
    ensures PortText(row, key).None?
  {
  }

  lemma ProbeReportHasPorts(row: Row, port1: bool, x: string, p2p: bool, y: string, status: Json)
    requires row.metricsReport == Some(ProbeReport(port1, x, p2p, y, status))
    ensures PortText(row, "port1") == Some(if port1 then "true" else "false")
    ensures PortText(row, "p2p") == Some(if p2p then "true" else "false")
  {
    var ports := JObject(map["port1" := JBool(port1), "port1Num" := JOther(x),
                             "p2p" := JBool(p2p), "p2pPort" := JOther(y)]);
    assert Arrow(row.metricsReport, "ports") == Some(ports);
    assert Arrow(Some(ports), "port1") == Some(JBool(port1));
    assert Arrow(Some(ports), "p2p") == Some(JBool(p2p));
  }

  // On the statements of one account: neither filter finds its row exactly when
  // the last probe reached the status API and a chain sync has overwritten its
  // report since.
  lemma {:induction false} NeitherIff(trace: seq<Event>, i: nat)
    requires SystemTrace(trace) && IsLastReport(trace, i)
    ensures RowAfter(trace).Some?
    ensures var row := RowAfter(trace).value;
            !IsAvailable(row) && !IsUnavailable(row) <==> row.isStatusApiAvailable && trace[i].Upsert?
  {
    LastReportWins(trace, i);
    var row := RowAfter(trace).value;
    assert FromLoops(trace[i]);
    match trace[i]
    case Upsert(_, r) =>
      var m, n, h :| r.metricsReport == Some(ChainReport(m, n, h));
      ChainReportHasNoPorts(row, m, n, h, "port1");
      ChainReportHasNoPorts(row, m, n, h, "p2p");
    case Probe(_, p) =>
      var a, x, b, y, s :| p.metricsReport == Some(ProbeReport(a, x, b, y, s));
      ProbeReportHasPorts(row, a, x, b, y, s);
  }

  // The same for every row of a reachable table.
  lemma {:induction false} NeitherIffInTable(trace: seq<Event>, account: string, i: nat)
    requires SystemTrace(trace) && IsLastReport(EventsOf(trace, account), i)
    ensures account in TableAfter(trace)
    ensures var row := TableAfter(trace)[account];
            !IsAvailable(row) && !IsUnavailable(row) <==>
              row.isStatusApiAvailable && EventsOf(trace, account)[i].Upsert?
  {
    EventsFromLoops(trace, account);
    NeitherIff(EventsOf(trace, account), i);
    RowsAreIndependent(trace, account);
  }

  // ---- The query text ----

  datatype Stored = Stored(account: string, row: Row)

  datatype Column =
    | Running | Stopped | ChainStateEq
    | StatusUp | Port1Open | P2pOpen | AnyDown
    | VersionEq | FailedAtLeast | AccountAfter

  // COALESCE(NULLIF("lastKnownActualVersion", ''), NULLIF("actualVersion", ''))
  function KnownVersion(row: Row): Option<string> {
    Coalesce(NullIfEmpty(row.lastKnownActualVersion), NullIfEmpty(Some(row.actualVersion)))
  }

  // rank is the collation order of account names.
  function Eval(rank: string -> real): (Column, Option<Arg>, Stored) -> Tri {
    (test: Column, value: Option<Arg>, x: Stored) => EvalColumn(rank, test, value, x)
  }

  function EvalColumn(rank: string -> real, test: Column, value: Option<Arg>, x: Stored): Tri {
    match (test, value)
    case (Running, _) => FromBool(x.row.currentState != STOPPED)
    case (Stopped, _) => FromBool(x.row.currentState == STOPPED)
    case (ChainStateEq, Some(Text(s))) => FromBool(x.row.currentState == s)
    case (StatusUp, _) => FromBool(x.row.isStatusApiAvailable)
    case (Port1Open, _) => Eq3(PortText(x.row, "port1"), "true")
    case (P2pOpen, _) => Eq3(PortText(x.row, "p2p"), "true")
    case (AnyDown, _) => UnavailableCond(x.row)
    case (VersionEq, Some(Text(s))) => Eq3(KnownVersion(x.row), s)
    case (FailedAtLeast, Some(Num(n))) => FromBool(x.row.failedProbeCounter >= n)
    case (AccountAfter, Some(Text(s))) => FromBool(rank(s) < rank(x.account))
    case _ => Unknown
  }

  function StateTests(f: Filter): seq<Test<Column>> {
    if f.currentState == "running" then [Test(Running, None)]
    else if f.currentState == "stopped" then [Test(Stopped, None)]
    else []
  }

  function StatusTests(f: Filter): seq<Test<Column>> {
    if f.status == "available" then [Test(StatusUp, None), Test(Port1Open, None), Test(P2pOpen, None)]
    else if f.status == "unavailable" then [Test(AnyDown, None)]
    else []
  }

  // The tests a filter stands for.
  function FirstTests(f: Filter): seq<Test<Column>> {
    StateTests(f) + Optional(ChainStateEq, TextArg(f.chainState)) + StatusTests(f)
  }

  function Tests(f: Filter): seq<Test<Column>> {
    FirstTests(f) + Optional(VersionEq, TextArg(f.version)) + Optional(FailedAtLeast, Some(Num(f.minFailed)))
    + Optional(AccountAfter, TextArg(f.cursorAccount))
  }

  method StateConditions(f: Filter) returns (conditions: seq<Cond<Column>>)
    ensures Numbered(conditions, []) && Bound(conditions, []) == StateTests(f)
  {
    conditions := [];
    match f.currentState {
      case "running" =>
        AddPlain(conditions, [], Running);
        conditions := conditions + [Cond(Running, 0)];
      case "stopped" =>
        AddPlain(conditions, [], Stopped);
        conditions := conditions + [Cond(Stopped, 0)];
      case _ =>
    }
  }

  method StatusConditions(f: Filter, conditions: seq<Cond<Column>>,
        args: seq<Arg>) returns (conditions': seq<Cond<Column>>)
    requires Numbered(conditions, args)
    ensures Numbered(conditions', args) && Bound(conditions', args) == Bound(conditions, args) + StatusTests(f)
  {
    conditions' := conditions;
    match f.status {
      case "available" =>
        AddPlain(conditions', args, StatusUp);
        conditions' := conditions' + [Cond(StatusUp, 0)];
        AddPlain(conditions', args, Port1Open);
        conditions' := conditions' + [Cond(Port1Open, 0)];
        AddPlain(conditions', args, P2pOpen);
        conditions' := conditions' + [Cond(P2pOpen, 0)];
      case "unavailable" =>
        AddPlain(conditions', args, AnyDown);
        conditions' := conditions' + [Cond(AnyDown, 0)];
      case _ =>
    }
  }

  method BuildWhere(f: Filter) returns (conditions: seq<Cond<Column>>, args: seq<Arg>)
    ensures Bound(conditions, args) == Tests(f)
  {
    args := [];
    conditions := StateConditions(f);
    var argPos := 1;
    conditions, args, argPos := AppendOptional(conditions, args, argPos, ChainStateEq, TextArg(f.chainState));
    conditions := StatusConditions(f, conditions, args);
    assert Bound(conditions, args) == FirstTests(f);
    conditions, args, argPos := AppendOptional(conditions, args, argPos, VersionEq, TextArg(f.version));
    conditions, args, argPos := AppendOptional(conditions, args, argPos, FailedAtLeast, Some(Num(f.minFailed)));
    conditions, args, argPos := AppendOptional(conditions, args, argPos, AccountAfter, TextArg(f.cursorAccount));
  }

  // What the caller asks for, apart from the cursor.
  predicate Matches(f: Filter, row: Row) {
    && (f.currentState == "running" ==> row.currentState != STOPPED)
    && (f.currentState == "stopped" ==> row.currentState == STOPPED)
    && (f.chainState.Some? ==> row.currentState == f.chainState.value)
    && (f.status == "available" ==> IsAvailable(row))
    && (f.status == "unavailable" ==> IsUnavailable(row))
    && (f.version.Some? ==> KnownVersion(row) == Some(f.version.value))
    && f.minFailed <= row.failedProbeCounter
  }

  lemma StatusTestsMean(f: Filter, rank: string -> real, x: Stored)
    ensures Selects(Eval(rank), StatusTests(f), x) <==>
              && (f.status == "available" ==> IsAvailable(x.row))
              && (f.status == "unavailable" ==> IsUnavailable(x.row))
  {
    var eval := Eval(rank);
    var up, port1, p2p := Test(StatusUp, None), Test(Port1Open, None), Test(P2pOpen, None);
    if f.status == "available" {
      SelectsBoth(eval, [up], [port1], x);
      SelectsBoth(eval, [up] + [port1], [p2p], x);
      SelectsOne(eval, up, x);
      SelectsOne(eval, port1, x);
      SelectsOne(eval, p2p, x);
    } else if f.status == "unavailable" {
      SelectsOne(eval, Test(AnyDown, None), x);
    }
  }

  lemma StateTestsMean(f: Filter, rank: string -> real, x: Stored)
    ensures Selects(Eval(rank), StateTests(f), x) <==>
              && (f.currentState == "running" ==> x.row.currentState != STOPPED)
              && (f.currentState == "stopped" ==> x.row.currentState == STOPPED)
  {
    SelectsOne(Eval(rank), Test(Running, None), x);
    SelectsOne(Eval(rank), Test(Stopped, None), x);
  }

  lemma FirstTestsMean(f: Filter, rank: string -> real, x: Stored)
    ensures Selects(Eval(rank), FirstTests(f), x) <==>
              && (f.currentState == "running" ==> x.row.currentState != STOPPED)
              && (f.currentState == "stopped" ==> x.row.currentState == STOPPED)
              && (f.chainState.Some? ==> x.row.currentState == f.chainState.value)
              && (f.status == "available" ==> IsAvailable(x.row))
              && (f.status == "unavailable" ==> IsUnavailable(x.row))
  {
    var chain := Optional(ChainStateEq, TextArg(f.chainState));
    SelectsBoth(Eval(rank), StateTests(f), chain, x);
    SelectsBoth(Eval(rank), StateTests(f) + chain, StatusTests(f), x);
    StateTestsMean(f, rank, x);
    SelectsOptional(Eval(rank), ChainStateEq, TextArg(f.chainState), x);
    StatusTestsMean(f, rank, x);
  }

  // The version a node is known to run: the last known one, or else the last
  // reported one.
  predicate HasVersion(row: Row, version: string) {
    && version != ""
    && (|| row.lastKnownActualVersion == Some(version)
        || ((row.lastKnownActualVersion.None? || row.lastKnownActualVersion.value == "")
            && row.actualVersion == version))
  }

  lemma OptionalTestsMean(f: Filter, rank: string -> real, x: Stored)
    ensures Selects(Eval(rank), Optional(VersionEq, TextArg(f.version)), x) <==>
              (f.version.Some? ==> KnownVersion(x.row) == Some(f.version.value))
    ensures Selects(Eval(rank), Optional(FailedAtLeast, Some(Num(f.minFailed))), x) <==>
              f.minFailed <= x.row.failedProbeCounter
    ensures Selects(Eval(rank), Optional(AccountAfter, TextArg(f.cursorAccount)), x) <==>
              (f.cursorAccount.Some? ==> rank(f.cursorAccount.value) < rank(x.account))
  {
    SelectsOptional(Eval(rank), VersionEq, TextArg(f.version), x);
    SelectsOptional(Eval(rank), FailedAtLeast, Some(Num(f.minFailed)), x);
    SelectsOptional(Eval(rank), AccountAfter, TextArg(f.cursorAccount), x);
  }

  // The assembled clause selects the rows the filter describes, beyond the
  // cursor.
  lemma TestsMeanFilter(f: Filter, rank: string -> real, x: Stored)
    ensures Selects(Eval(rank), Tests(f), x) <==>
              Matches(f, x.row) && (f.cursorAccount.Some? ==> rank(f.cursorAccount.value) < rank(x.account))
    ensures Selects(Eval(rank), Tests(f), x) <==>
              && (f.currentState == "running" ==> x.row.currentState != "SUPERNODE_STATE_STOPPED")
              && (f.currentState == "stopped" ==> x.row.currentState == "SUPERNODE_STATE_STOPPED")
              && (f.chainState.Some? ==> x.row.currentState == f.chainState.value)
              && (f.status == "available" ==> IsAvailable(x.row))
              && (f.status == "unavailable" ==> IsUnavailable(x.row))
              && (f.version.Some? ==> HasVersion(x.row, f.version.value))
              && f.minFailed <= x.row.failedProbeCounter
              && (f.cursorAccount.Some? ==> rank(f.cursorAccount.value) < rank(x.account))
  {
    SelectsFour(Eval(rank), FirstTests(f), Optional(VersionEq, TextArg(f.version)),
                Optional(FailedAtLeast, Some(Num(f.minFailed))), Optional(AccountAfter, TextArg(f.cursorAccount)), x);
    FirstTestsMean(f, rank, x);
    OptionalTestsMean(f, rank, x);
  }

  // ---- One page ----

  ghost function Selected(t: Table, rank: string -> real, tests: seq<Test<Column>>): set<string> {
    set a | a in t && Selects(Eval(rank), tests, Stored(a, t[a]))
  }

  ghost function MatchingAccounts(t: Table, f: Filter): set<string> {
    set a | a in t && Matches(f, t[a])
  }

  function AccountsOf(rows: seq<Stored>): (names: seq<string>)
    ensures |names| == |rows| && forall i :: 0 <= i < |names| ==> names[i] == rows[i].account
  {
    seq(|rows|, i requires 0 <= i < |rows| => rows[i].account)
  }

  ghost predicate IsAnswer(t: Table, rank: string -> real, tests: seq<Test<Column>>, n: nat, rows: seq<Stored>) {
    && AccountsOf(rows) == FirstOf(Listing(rank, Selected(t, rank, tests)), n)
    && forall i :: 0 <= i < |rows| ==> rows[i].account in t && rows[i].row == t[rows[i].account]
  }

  ghost predicate FaithfulQuery(t: Table, rank: string -> real,
                                query: (seq<Cond<Column>>, seq<Arg>, nat) -> Result<seq<Stored>>) {
    forall conds, args, n: nat :: query(conds, args, n).Ok? ==>
      IsAnswer(t, rank, Bound(conds, args), n, query(conds, args, n).value)
  }

  lemma SelectedIsAfter(t: Table, f: Filter, rank: string -> real)
    ensures Selected(t, rank, Tests(f)) == After(rank, MatchingAccounts(t, f), f.cursorAccount)
  {
    forall a | a in t
      ensures Selects(Eval(rank), Tests(f), Stored(a, t[a])) <==>
                Matches(f, t[a]) && (f.cursorAccount.Some? ==> rank(f.cursorAccount.value) < rank(a))
    {
      TestsMeanFilter(f, rank, Stored(a, t[a]));
    }
  }

  // A page is the first `limit` matching rows after the cursor in collation
  // order, and the flag says whether more follow.
  method ListSupernodeMetricsFiltered(ghost t: Table, ghost rank: string -> real, f: Filter,
                                      query: (seq<Cond<Column>>, seq<Arg>, nat) -> Result<seq<Stored>>)
    returns (r: Result<Page<Stored>>)
    requires FaithfulQuery(t, rank, query)
    ensures r.Ok? ==>
              && Page(AccountsOf(r.value.items), r.value.hasMore)
                   == FetchPage(rank, MatchingAccounts(t, f), f.cursorAccount, EffectiveLimit(f.limit))
              && (forall x :: x in r.value.items ==> x.account in t && x.row == t[x.account])
              && |r.value.items| <= (if f.limit <= 0 then 1 else f.limit)
    ensures (forall conds, args, n: nat :: query(conds, args, n).Ok?) ==> r.Ok?
  {
    var limit := f.limit;
    if limit <= 0 {
      limit := 1;
    }
    var conditions, args := BuildWhere(f);
    var answer := query(conditions, args, limit + 1);
    if answer.Err? {
      return Err;
    }
    var rows := answer.value;
    assert IsAnswer(t, rank, Tests(f), limit + 1, rows);
    SelectedIsAfter(t, f, rank);
    TrimmedIsPage(rank, MatchingAccounts(t, f), f.cursorAccount, limit, AccountsOf(rows));
    if |rows| > limit {
      assert AccountsOf(rows[..limit]) == AccountsOf(rows)[..limit];
      return Ok(Page(rows[..limit], true));
    }
    return Ok(Page(rows, false));
  }

  // The time of a row that counts for the response.
  predicate HasTime(row: Row, time: int) {
    row.lastStatusCheck == Some(time) || (row.lastStatusCheck == None && row.lastSuccessfulProbe == Some(time))
  }

  predicate NotLater(row: Row, time: int) {
    && (row.lastStatusCheck.Some? ==> row.lastStatusCheck.value <= time)
    && (row.lastStatusCheck.None? && row.lastSuccessfulProbe.Some? ==> row.lastSuccessfulProbe.value <= time)
  }

  // The handler: the nodes of the page, the newest time among them (a check
  // time, or else a successful probe), and the next cursor.
  method ListSupernodesMetrics(page: Page<Stored>) returns (nodes: seq<Stored>, maxTimestamp: Option<int>,
        cursor: Option<string>)
    ensures nodes == page.items
    ensures cursor.Some? <==> page.hasMore && page.items != []
    ensures cursor.Some? ==> cursor.value == page.items[|page.items| - 1].account
    ensures cursor == NextCursor(Page(AccountsOf(page.items), page.hasMore))
    ensures maxTimestamp.None? <==>
              forall x :: x in page.items ==> x.row.lastStatusCheck.None? && x.row.lastSuccessfulProbe.None?
    ensures maxTimestamp.Some? ==> exists x :: x in page.items && HasTime(x.row, maxTimestamp.value)
    ensures maxTimestamp.Some? ==> forall x :: x in page.items ==> NotLater(x.row, maxTimestamp.value)
  {
    nodes, maxTimestamp := [], None;
    for i := 0 to |page.items|
      invariant nodes == page.items[..i]
      invariant maxTimestamp.None? <==>
                  forall x :: x in nodes ==> x.row.lastStatusCheck.None? && x.row.lastSuccessfulProbe.None?
      invariant maxTimestamp.Some? ==> exists x :: x in nodes && HasTime(x.row, maxTimestamp.value)
      invariant maxTimestamp.Some? ==> forall x :: x in nodes ==> NotLater(x.row, maxTimestamp.value)
    {
      var sn := page.items[i];
      nodes := nodes + [sn];
      assert sn in nodes;
      var candidate := None;
      if sn.row.lastStatusCheck.Some? {
        candidate := sn.row.lastStatusCheck;
      } else if sn.row.lastSuccessfulProbe.Some? {
        candidate := sn.row.lastSuccessfulProbe;
      }
      if candidate.Some? {
        if maxTimestamp.None? || candidate.value > maxTimestamp.value {
          maxTimestamp := candidate;
        }
      }
    }
    cursor := None;
    if page.hasMore && |page.items| > 0 {
      cursor := Some(page.items[|page.items| - 1].account);
    }
  }

  // ---- Whole walks ----

  ghost function Snapshots(tables: seq<Table>, f: Filter): (s: seq<set<string>>)
    ensures |s| == |tables| && forall i :: 0 <= i < |s| ==> s[i] == MatchingAccounts(tables[i], f)
  {
    seq(|tables|, i requires 0 <= i < |tables| => MatchingAccounts(tables[i], f))
  }

  // Following cursors while syncs and probes change the rows: no account comes
  // twice, every account of a page matched when that page was fetched, and
  // every account that matches throughout is returned.
  lemma {:induction false} WalkUnderWrites(tables: seq<Table>, f: Filter, rank: string -> real, limit: nat)
    requires Injective(rank) && 1 <= limit
    ensures var pages := Walk(rank, Snapshots(tables, f), None, limit);
            && NoDuplicates(Items(pages)) && |pages| <= |tables|
            && (forall i, a :: 0 <= i < |pages| && a in pages[i].items ==> a in MatchingAccounts(tables[i], f))
            && (Finished(pages) ==>
                  forall a :: (forall i :: 0 <= i < |tables| ==> a in MatchingAccounts(tables[i], f)) ==>
                    a in Items(pages))
  {
    var snapshots := Snapshots(tables, f);
    var pages := Walk(rank, snapshots, None, limit);
    WalkAscends(rank, snapshots, None, limit);
    AscendingHasNoDuplicates(rank, Items(pages));
    if pages != [] {
      WalkSound(rank, snapshots, None, limit, |pages| - 1);
    }
    forall i, a | 0 <= i < |pages| && a in pages[i].items ensures a in MatchingAccounts(tables[i], f) {
      WalkSound(rank, snapshots, None, limit, i);
    }
    if Finished(pages) {
      forall a | forall i :: 0 <= i < |tables| ==> a in MatchingAccounts(tables[i], f) ensures a in Items(pages) {
        WalkComplete(rank, snapshots, None, limit, a);
      }
    }
  }

  // ---- Hardware totals ----

  // The WHERE clause of the aggregate query.
  ghost function FullyAvailable(t: Table): set<string> {
    set a | a in t && IsAvailable(t[a]) && t[a].currentState != STOPPED
  }

  const AVAILABLE_RUNNING := Filter("running", None, "available", None, 0, 1, None)

  // The listing's failure-count condition excludes nothing when its bound is
  // zero, because counters are never negative.
  lemma SameRowsAsListing(t: Table)
    requires forall a :: a in t ==> ProbeInvariant(ProbeHalf(t[a]))
    ensures FullyAvailable(t) == MatchingAccounts(t, AVAILABLE_RUNNING)
  {
  }

  ghost function CoresAt(t: Table): string -> real {
    a => if a in t && t[a].hardware.cpuCores.Some? then t[a].hardware.cpuCores.value as real else 0.0
  }

  ghost function StorageAt(t: Table): string -> real {
    a => if a in t && t[a].hardware.storageTotalBytes.Some? then t[a].hardware.storageTotalBytes.value as real else 0.0
  }

  ghost function UsedAt(t: Table): string -> real {
    a => if a in t && t[a].hardware.storageUsedBytes.Some? then t[a].hardware.storageUsedBytes.value as real else 0.0
  }

  ghost function RecordsAt(t: Table): string -> real {
    a => if a in t && t[a].hardware.p2pRecords.Some? then t[a].hardware.p2pRecords.value as real else 0.0
  }

  datatype HardwareStats = HardwareStats(
    totalCPUCores: real, totalStorageBytes: real, usedStorageBytes: real, totalP2PRecords: real,
    availableSupernodes: nat)

  // GetAggregatedHardwareStats: one query over the table.
  ghost function Aggregated(t: Table): HardwareStats {
    var rows := FullyAvailable(t);
    HardwareStats(SumSet(rows, CoresAt(t)), SumSet(rows, StorageAt(t)), SumSet(rows, UsedAt(t)),
                  SumSet(rows, RecordsAt(t)), |rows|)
  }

  lemma AscendingHasNoDuplicates<K>(rank: K -> real, s: seq<K>)
    requires Ascending(rank, s)
    ensures NoDuplicates(s)
  {
    forall i, j | 0 <= i < j < |s| ensures s[i] != s[j] {
      assert rank(s[i]) < rank(s[j]);
    }
  }

  // What each node contributes to the four sums; a NULL column contributes 0.
  ghost predicate Contributes(t: Table, cores: string -> real, storage: string -> real, used: string -> real,
                              records: string -> real) {
    forall a :: a in t ==>
      var hw := t[a].hardware;
      && cores(a) == (if hw.cpuCores.Some? then hw.cpuCores.value as real else 0.0)
      && storage(a) == (if hw.storageTotalBytes.Some? then hw.storageTotalBytes.value as real else 0.0)
      && used(a) == (if hw.storageUsedBytes.Some? then hw.storageUsedBytes.value as real else 0.0)
      && records(a) == (if hw.p2pRecords.Some? then hw.p2pRecords.value as real else 0.0)
  }

  // For every page size, the pages of the listing of available, running
  // supernodes hold each of them once, and the aggregate equals the sums a
  // client adds up over all pages.
  lemma {:induction false} AggregateIsSumOverPages(t: Table, rank: string -> real, limit: nat,
        snapshots: seq<set<string>>, items: seq<string>,
        cores: string -> real, storage: string -> real, used: string -> real, records: string -> real)
    requires Injective(rank) && 1 <= limit && snapshots != []
    requires forall a :: a in t ==> ProbeInvariant(ProbeHalf(t[a]))
    requires forall i :: 0 <= i < |snapshots| ==> snapshots[i] == MatchingAccounts(t, AVAILABLE_RUNNING)
    requires |MatchingAccounts(t, AVAILABLE_RUNNING)| <= |snapshots| * limit
    requires items == Items(Walk(rank, snapshots, None, limit)) && Contributes(t, cores, storage, used, records)
    ensures Finished(Walk(rank, snapshots, None, limit)) && NoDuplicates(items)
    ensures forall a :: a in items <==> a in t && IsAvailable(t[a]) && t[a].currentState != "SUPERNODE_STATE_STOPPED"
    ensures Aggregated(t) == HardwareStats(SumSeq(items, cores), SumSeq(items, storage), SumSeq(items, used),
                                           SumSeq(items, records), |items|)
  {
    var wanted := MatchingAccounts(t, AVAILABLE_RUNNING);
    assert After(rank, wanted, None) == wanted;
    WalkFixed(rank, wanted, snapshots, None, limit);
    ListingIsListing(rank, wanted);
    AscendingHasNoDuplicates(rank, items);
    SameRowsAsListing(t);
    ListingSize(rank, wanted);
    SumOfItems(items, wanted, CoresAt(t), cores);
    SumOfItems(items, wanted, StorageAt(t), storage);
    SumOfItems(items, wanted, UsedAt(t), used);
    SumOfItems(items, wanted, RecordsAt(t), records);
  }

  lemma SumOfItems(items: seq<string>, wanted: set<string>, f: string -> real, g: string -> real)
    requires NoDuplicates(items) && forall a :: a in items <==> a in wanted
    requires forall a :: a in wanted ==> f(a) == g(a)
    ensures SumSet(wanted, f) == SumSeq(items, g)
  {
    SumSetSame(wanted, f, g);
    SumSeqIsSumSet(items, wanted, g);
  }
}
