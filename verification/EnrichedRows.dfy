// What each stored row is after a run of the enricher, in terms of the chain's
// answers and the writes that land.
module EnrichedRows {
  import opened Sql
  import opened Tables
  import opened Client
  import opened Enricher
  import opened EnricherGuarantees

  // The two tables hold the same row under this key, or both hold none.
  ghost predicate SameAt(t: TxTable, t': TxTable, k: TxKey) {
    (k in t <==> k in t') && (k in t ==> t[k] == t'[k])
  }

  // ---- One list of rows ----

  // Row i of the list has the type, and its write lands.
  ghost predicate LandsAt(rows: seq<ActionTx>, writes: nat -> bool, txType: string, i: nat) {
    i < |rows| && rows[i].txType == txType && writes(i)
  }

  ghost predicate LandsLast(rows: seq<ActionTx>, writes: nat -> bool, txType: string, i: nat) {
    LandsAt(rows, writes, txType, i) && forall j: nat :: i < j ==> !LandsAt(rows, writes, txType, j)
  }

  // The last landed row of a type is the one that is stored.
  lemma {:induction false} LastWriteStays(t: TxTable, rows: seq<ActionTx>, writes: nat -> bool, id: nat,
        txType: string, i: nat)
    requires forall r :: r in rows ==> r.actionID == id
    requires LandsLast(rows, writes, txType, i)
    ensures TxKey(id, txType) in WriteRows(t, rows, writes)
    ensures WriteRows(t, rows, writes)[TxKey(id, txType)] == rows[i]
  {
    var n := |rows| - 1;
    assert rows[n] in rows;
    if i < n {
      assert !LandsAt(rows, writes, txType, n);
      forall j: nat ensures LandsAt(rows[..n], writes, txType, j) <==> j < n && LandsAt(rows, writes, txType, j) {
      }
      LastWriteStays(t, rows[..n], writes, id, txType, i);
    }
  }

  lemma {:induction false} OtherKeysStay(t: TxTable, rows: seq<ActionTx>, writes: nat -> bool, k: TxKey)
    requires forall i: nat :: LandsAt(rows, writes, k.txType, i) ==> rows[i].actionID != k.actionID
    ensures SameAt(t, WriteRows(t, rows, writes), k)
  {
    if rows != [] {
      var n := |rows| - 1;
      var init := rows[..n];
      forall j: nat | LandsAt(init, writes, k.txType, j) ensures init[j].actionID != k.actionID {
        assert LandsAt(rows, writes, k.txType, j);
      }
      OtherKeysStay(t, init, writes, k);
      assert rows[n].actionID == k.actionID ==> !LandsAt(rows, writes, k.txType, n);
    }
  }

  // What is written under a key depends only on what was stored there.
  lemma {:induction false} WritesAreLocal(t: TxTable, t': TxTable, rows: seq<ActionTx>, writes: nat -> bool, k: TxKey)
    requires SameAt(t, t', k)
    ensures SameAt(WriteRows(t, rows, writes), WriteRows(t', rows, writes), k)
  {
    if rows != [] {
      WritesAreLocal(t, t', rows[..|rows| - 1], writes, k);
    }
  }

  // ---- A list of actions ----

  // Among actions with different ids, only its own processing matters for a
  // row of action i.
  lemma {:induction false} ProcessedAlone(env: Env, t: TxTable, acts: seq<EnrichAction>, i: int, k: TxKey)
    requires forall a :: a in acts ==> ChainAnswers(env, a)
    requires AscendingIds(acts) && 0 <= i < |acts| && k.actionID == acts[i].id
    ensures SameAt(ProcessOne(env, t, acts[i]), ProcessAll(env, t, acts), k)
  {
    var n := |acts| - 1;
    var init, a := acts[..n], acts[n];
    assert forall x :: x in init ==> x in acts;
    if i == n {
      forall j | 0 <= j < |init| ensures init[j].id != k.actionID {
        assert init[j] == acts[j];
      }
      ProcessAllFrame(env, t, init, k);
      WritesAreLocal(t, ProcessAll(env, t, init), RowsFor(a, env.chain(a)), Lands(env, a.id), k);
    } else {
      ProcessedAlone(env, t, init, i, k);
      assert a.id != k.actionID && a in acts;
      ProcessOneFrame(env, ProcessAll(env, t, init), a);
    }
  }

  // ---- A whole run ----

  // Row i of the chain's answer for the action has the type, and its write
  // lands.
  ghost predicate AnswerLands(env: Env, a: EnrichAction, txType: string, i: nat) {
    && env.chain(a).Some? && i < |env.chain(a).value|
    && env.chain(a).value[i].txType == txType && env.writes(a.id, i)
  }

  ghost predicate PlaceholderLands(env: Env, a: EnrichAction, txType: string) {
    env.chain(a) == Some([]) && env.writes(a.id, 0) && txType == "register"
  }

  lemma VisitedRow(env: Env, b: nat, t: TxTable, minID: nat, a: EnrichAction, k: TxKey)
    requires Faithful(env) && a in RunFrom(env, b, t, minID).visited && k.actionID == a.id
    ensures SameAt(ProcessOne(env, t, a), RunFrom(env, b, t, minID).txs, k)
  {
    var visited := RunFrom(env, b, t, minID).visited;
    RunProcessesVisited(env, b, t, minID);
    VisitsAscend(env, b, t, minID);
    var i :| 0 <= i < |visited| && visited[i] == a;
    ProcessedAlone(env, t, visited, i, k);
  }

  // After a run, whatever else was processed, the row of a visited action and a
  // type is the last row of that type in the chain's answer whose write landed.
  lemma LastAnswerIsStored(env: Env, b: nat, t: TxTable, minID: nat, a: EnrichAction, txType: string, i: nat)
    requires Faithful(env) && a in RunFrom(env, b, t, minID).visited
    requires AnswerLands(env, a, txType, i) && forall j: nat :: i < j ==> !AnswerLands(env, a, txType, j)
    ensures TxKey(a.id, txType) in RunFrom(env, b, t, minID).txs
    ensures RunFrom(env, b, t, minID).txs[TxKey(a.id, txType)] == env.chain(a).value[i]
  {
    VisitedRow(env, b, t, minID, a, TxKey(a.id, txType));
    var rows := RowsFor(a, env.chain(a));
    assert ChainAnswers(env, a);
    forall j: nat ensures LandsAt(rows, Lands(env, a.id), txType, j) <==> AnswerLands(env, a, txType, j) {
    }
    LastWriteStays(t, rows, Lands(env, a.id), a.id, txType, i);
  }

  // When the answer is empty and the write lands, the register row is the
  // placeholder, dated to the creation of the action.
  lemma PlaceholderIsStored(env: Env, b: nat, t: TxTable, minID: nat, a: EnrichAction)
    requires Faithful(env) && a in RunFrom(env, b, t, minID).visited
    requires env.chain(a) == Some([]) && env.writes(a.id, 0)
    ensures TxKey(a.id, "register") in RunFrom(env, b, t, minID).txs
    ensures RunFrom(env, b, t, minID).txs[TxKey(a.id, "register")] ==
              ActionTx(a.id, "register", "_NO_TX_FOUND_", 0, a.createdAt,
                       None, None, None, None, None, None, None, None)
  {
    VisitedRow(env, b, t, minID, a, TxKey(a.id, "register"));
    var rows := RowsFor(a, env.chain(a));
    assert LandsLast(rows, Lands(env, a.id), "register", 0);
    LastWriteStays(t, rows, Lands(env, a.id), a.id, "register", 0);
  }

  // In every other case, and for every action that was not visited, the row is
  // the one from before the run.
  lemma OtherRowsAreKept(env: Env, b: nat, t: TxTable, minID: nat, k: TxKey)
    requires Faithful(env)
    requires forall a :: a in RunFrom(env, b, t, minID).visited && a.id == k.actionID ==>
               !PlaceholderLands(env, a, k.txType) && forall i: nat :: !AnswerLands(env, a, k.txType, i)
    ensures SameAt(t, RunFrom(env, b, t, minID).txs, k)
  {
    var visited := RunFrom(env, b, t, minID).visited;
    if a :| a in visited && a.id == k.actionID {
      VisitedRow(env, b, t, minID, a, k);
      var rows := RowsFor(a, env.chain(a));
      forall i: nat ensures !LandsAt(rows, Lands(env, a.id), k.txType, i) {
        assert !AnswerLands(env, a, k.txType, i);
      }
      OtherKeysStay(t, rows, Lands(env, a.id), k);
    } else {
      RunProcessesVisited(env, b, t, minID);
      forall a | a in visited ensures ChainAnswers(env, a) {
      }
      ProcessAllFrame(env, t, visited, k);
    }
  }
}
