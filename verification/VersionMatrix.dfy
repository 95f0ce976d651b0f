// Supernodes per software version (internal/db/db.go, ListVersionMatrix;
// internal/handlers/version.go, VersionMatrix).
module VersionMatrix {
  import opened Sql
  import opened Supernodes
  import opened SupernodeTraces
  import opened Collections

  // COALESCE(NULLIF("lastKnownActualVersion", ''), NULLIF("actualVersion", ''), 'unknown')
  function PrimaryVersion(row: Row): string {
    CoalesceTo(Coalesce(NullIfEmpty(row.lastKnownActualVersion), NullIfEmpty(Some(row.actualVersion))), "unknown")
  }

  // COALESCE(NULLIF("actualVersion", ''), 'unknown')
  function FallbackVersion(row: Row): string {
    CoalesceTo(NullIfEmpty(Some(row.actualVersion)), "unknown")
  }

  datatype VersionRow = VersionRow(version: string, total: int, available: int, unavailable: int)

  ghost function VersionIn(t: Table, version: Row -> string): string -> string {
    a => if a in t then version(t[a]) else "unknown"
  }

  ghost function Known(t: Table, version: Row -> string): set<string> {
    set a | a in t && version(t[a]) != "unknown"
  }

  // The nodes counted in one row.
  ghost function Nodes(t: Table, version: Row -> string, v: string): set<string> {
    Group(Known(t, version), VersionIn(t, version), v)
  }

  ghost function Up(t: Table, nodes: set<string>): set<string> {
    set a | a in nodes && a in t && t[a].isStatusApiAvailable
  }

  ghost function Down(t: Table, nodes: set<string>): set<string> {
    set a | a in nodes && a in t && !t[a].isStatusApiAvailable
  }

  ghost predicate IsVersionRow(t: Table, version: Row -> string, r: VersionRow) {
    var nodes := Nodes(t, version, r.version);
    && nodes != {}
    && r.total == |nodes|
    && r.available == |Up(t, nodes)|
    && r.unavailable == |Down(t, nodes)|
  }

  ghost predicate Descending(rows: seq<VersionRow>) {
    forall i, j :: 0 <= i < j < |rows| ==> rows[i].total >= rows[j].total
  }

  function Versions(rows: seq<VersionRow>): (vs: seq<string>)
    ensures |vs| == |rows| && forall i :: 0 <= i < |vs| ==> vs[i] == rows[i].version
  {
    seq(|rows|, i requires 0 <= i < |rows| => rows[i].version)
  }

  // GROUP BY version ORDER BY total DESC; the order among equal totals is up
  // to the database.
  ghost predicate IsMatrix(t: Table, version: Row -> string, rows: seq<VersionRow>) {
    && NoDuplicates(Versions(rows))
    && (forall a :: a in Known(t, version) ==> VersionIn(t, version)(a) in Versions(rows))
    && (forall i :: 0 <= i < |rows| ==> IsVersionRow(t, version, rows[i]))
    && Descending(rows)
  }

  function Totals(rows: seq<VersionRow>): (ts: seq<int>)
    ensures |ts| == |rows| && forall i :: 0 <= i < |ts| ==> ts[i] == rows[i].total
  {
    seq(|rows|, i requires 0 <= i < |rows| => rows[i].total)
  }

  // The rows partition the nodes with a known version: each row splits into
  // available and unavailable nodes, and the totals add up to all of them.
  lemma {:induction false} MatrixPartitions(t: Table, version: Row -> string, rows: seq<VersionRow>)
    requires IsMatrix(t, version, rows)
    ensures forall i :: 0 <= i < |rows| ==>
              rows[i].total == rows[i].available + rows[i].unavailable && rows[i].total >= 1
    ensures SumInts(Totals(rows)) == |Known(t, version)|
  {
    forall i | 0 <= i < |rows|
      ensures rows[i].total == rows[i].available + rows[i].unavailable && rows[i].total >= 1
    {
      var nodes := Nodes(t, version, rows[i].version);
      assert IsVersionRow(t, version, rows[i]);
      assert nodes == Up(t, nodes) + Down(t, nodes);
      assert Up(t, nodes) !! Down(t, nodes);
    }
    forall i | 0 <= i < |rows| ensures Totals(rows)[i] == |Nodes(t, version, Versions(rows)[i])| {
      assert IsVersionRow(t, version, rows[i]);
    }
    CountByGroup(Known(t, version), VersionIn(t, version), Versions(rows), Totals(rows));
  }

  // On a reachable row both queries see the same version.
  lemma SameVersion(row: Row)
    requires ProbeInvariant(ProbeHalf(row))
    ensures PrimaryVersion(row) == FallbackVersion(row)
  {
  }

  lemma SameNodes(t: Table, v: string)
    requires forall a :: a in t ==> ProbeInvariant(ProbeHalf(t[a]))
    ensures Known(t, PrimaryVersion) == Known(t, FallbackVersion)
    ensures Nodes(t, PrimaryVersion, v) == Nodes(t, FallbackVersion, v)
  {
    forall a | a in t ensures PrimaryVersion(t[a]) == FallbackVersion(t[a]) {
      SameVersion(t[a]);
    }
  }

  // In every reachable state the query that uses lastKnownActualVersion and the
  // fallback that does not admit exactly the same answers.
  lemma {:induction false} FallbackAgrees(trace: seq<Event>, rows: seq<VersionRow>)
    requires SystemTrace(trace)
    ensures IsMatrix(TableAfter(trace), PrimaryVersion, rows) <==> IsMatrix(TableAfter(trace), FallbackVersion, rows)
  {
    var t := TableAfter(trace);
    forall a | a in t ensures ProbeInvariant(ProbeHalf(t[a])) {
      ReachableTable(trace, a);
    }
    forall v ensures Nodes(t, PrimaryVersion, v) == Nodes(t, FallbackVersion, v) {
      SameNodes(t, v);
    }
    SameNodes(t, "");
    forall i | 0 <= i < |rows|
      ensures IsVersionRow(t, PrimaryVersion, rows[i]) <==> IsVersionRow(t, FallbackVersion, rows[i])
    {
    }
    forall a | a in Known(t, PrimaryVersion)
      ensures VersionIn(t, PrimaryVersion)(a) == VersionIn(t, FallbackVersion)(a)
    {
      SameVersion(t[a]);
    }
  }

  lemma ReachableVersion(row: Row)
    requires ProbeInvariant(ProbeHalf(row))
    ensures PrimaryVersion(row) == if row.actualVersion == "" then "unknown" else row.actualVersion
  {
  }

  // In every reachable state the rows are about the software version each node
  // last reported: every known version has a row, which counts the nodes that
  // report it, split by whether their status API answered.
  lemma {:induction false} MatrixOfVersions(trace: seq<Event>, rows: seq<VersionRow>)
    requires SystemTrace(trace) && IsMatrix(TableAfter(trace), PrimaryVersion, rows)
    ensures var t := TableAfter(trace);
            && (forall i :: 0 <= i < |rows| ==>
                  && rows[i].version != "" && rows[i].version != "unknown"
                  && rows[i].total == |set a | a in t && t[a].actualVersion == rows[i].version|
                  && rows[i].available
                       == |set a | a in t && t[a].actualVersion == rows[i].version && t[a].isStatusApiAvailable|
                  && rows[i].unavailable
                       == |set a | a in t && t[a].actualVersion == rows[i].version && !t[a].isStatusApiAvailable|)
            && (forall a :: a in t && t[a].actualVersion != "" && t[a].actualVersion != "unknown" ==>
                  exists i :: 0 <= i < |rows| && rows[i].version == t[a].actualVersion)
  {
    var t := TableAfter(trace);
    forall a | a in t
      ensures PrimaryVersion(t[a]) == if t[a].actualVersion == "" then "unknown" else t[a].actualVersion
    {
      ReachableTable(trace, a);
      ReachableVersion(t[a]);
    }
    forall i | 0 <= i < |rows|
      ensures && rows[i].version != "" && rows[i].version != "unknown"
              && rows[i].total == |set a | a in t && t[a].actualVersion == rows[i].version|
              && rows[i].available
                   == |set a | a in t && t[a].actualVersion == rows[i].version && t[a].isStatusApiAvailable|
              && rows[i].unavailable
                   == |set a | a in t && t[a].actualVersion == rows[i].version && !t[a].isStatusApiAvailable|
    {
      RowOfVersion(t, rows[i]);
    }
    forall a | a in t && t[a].actualVersion != "" && t[a].actualVersion != "unknown"
      ensures exists i :: 0 <= i < |rows| && rows[i].version == t[a].actualVersion
    {
      assert a in Known(t, PrimaryVersion) && VersionIn(t, PrimaryVersion)(a) in Versions(rows);
      var i :| 0 <= i < |rows| && Versions(rows)[i] == t[a].actualVersion;
    }
  }

  lemma RowOfVersion(t: Table, r: VersionRow)
    requires forall a :: a in t ==>
               PrimaryVersion(t[a]) == if t[a].actualVersion == "" then "unknown" else t[a].actualVersion
    requires IsVersionRow(t, PrimaryVersion, r)
    ensures r.version != "" && r.version != "unknown"
    ensures r.total == |set a | a in t && t[a].actualVersion == r.version|
    ensures r.available == |set a | a in t && t[a].actualVersion == r.version && t[a].isStatusApiAvailable|
    ensures r.unavailable == |set a | a in t && t[a].actualVersion == r.version && !t[a].isStatusApiAvailable|
  {
    var nodes := Nodes(t, PrimaryVersion, r.version);
    var a :| a in nodes;
    assert nodes == set a | a in t && t[a].actualVersion == r.version;
    assert Up(t, nodes) == set a | a in t && t[a].actualVersion == r.version && t[a].isStatusApiAvailable;
    assert Down(t, nodes) == set a | a in t && t[a].actualVersion == r.version && !t[a].isStatusApiAvailable;
  }

  // ---- The handler ----

  datatype MatrixRow = MatrixRow(version: string, total: int, available: int, unavailable: int, isLatest: bool)

  // versions is the query's answer.
  method BuildMatrix(ghost t: Table, ghost version: Row -> string, versions: seq<VersionRow>)
    returns (latest: Option<string>, rows: seq<MatrixRow>)
    requires IsMatrix(t, version, versions)
    ensures |rows| == |versions|
    ensures forall i :: 0 <= i < |rows| ==>
              VersionRow(rows[i].version, rows[i].total, rows[i].available, rows[i].unavailable) == versions[i]
    ensures latest.None? <==> Known(t, version) == {}
    ensures latest.Some? ==> exists l :: IsOnlyLatest(rows, l) && latest == Some(rows[l].version)
  {
    if |versions| == 0 {
      return None, [];
    }
    assert IsVersionRow(t, version, versions[0]);
    var latestVersion := versions[0].version;
    rows := [];
    for i := 0 to |versions|
      invariant |rows| == i
      invariant forall j :: 0 <= j < i ==>
                  rows[j] == MatrixRow(versions[j].version, versions[j].total, versions[j].available,
                                       versions[j].unavailable, versions[j].version == latestVersion)
    {
      var v := versions[i];
      rows := rows + [MatrixRow(v.version, v.total, v.available, v.unavailable, v.version == latestVersion)];
    }
    forall j | 1 <= j < |versions| ensures versions[j].version != latestVersion {
      assert Versions(versions)[0] != Versions(versions)[j];
    }
    assert IsOnlyLatest(rows, 0);
    return Some(latestVersion), rows;
  }

  // Row l is the only one marked latest, and no row has more nodes.
  ghost predicate IsOnlyLatest(rows: seq<MatrixRow>, l: int) {
    && 0 <= l < |rows|
    && (forall i :: 0 <= i < |rows| ==> (rows[i].isLatest <==> i == l))
    && (forall i :: 0 <= i < |rows| ==> rows[i].total <= rows[l].total)
  }
}
