// One run of the action transaction enricher (internal/background/scheduler.go,
// runActionTxEnricher) over GetUnenrichedActions and UpsertActionTransaction
// (internal/db/db.go).
module Enricher {
  import opened Sql
  import opened Tables
  import opened Client

  const BATCH_SIZE: nat := 50

  // extractFirstSupernode
  function FirstSupernode(superNodes: Option<seq<string>>): string {
    if superNodes.Some? && |superNodes.value| > 0 then superNodes.value[0] else ""
  }

  function View(id: nat, row: Action): EnrichAction {
    EnrichAction(id, row.creator, FirstSupernode(row.superNodes), row.createdAt)
  }

  // The ids the query selects: stored, from minID on, without a register row.
  ghost function Unenriched(actions: ActionTable, txs: TxTable, minID: nat): set<nat> {
    set id | id in actions && minID <= id && !Registered(txs, id)
  }

  ghost predicate Visits(acts: seq<EnrichAction>, id: nat) {
    exists i :: 0 <= i < |acts| && acts[i].id == id
  }

  ghost predicate AscendingIds(acts: seq<EnrichAction>) {
    forall i, j :: 0 <= i < j < |acts| ==> acts[i].id < acts[j].id
  }

  // What GetUnenrichedActions returns: the first BATCH_SIZE selected actions
  // in id order.
  ghost predicate IsBatch(actions: ActionTable, txs: TxTable, minID: nat, batch: seq<EnrichAction>) {
    && |batch| <= BATCH_SIZE
    && AscendingIds(batch)
    && (forall a :: a in batch ==> a.id in Unenriched(actions, txs, minID) && a == View(a.id, actions[a.id]))
    && (forall id :: id in Unenriched(actions, txs, minID) ==>
          Visits(batch, id) || (|batch| == BATCH_SIZE && batch[BATCH_SIZE - 1].id < id))
  }

  // What a run depends on: the actions table when batch b is fetched, the
  // answer of the batch query, the chain client's answer per action, and
  // whether the i-th write for an action reaches the table.
  datatype Env = Env(
    snapshots: nat -> ActionTable,
    query: (nat, TxTable, nat) -> Result<seq<EnrichAction>>,
    chain: EnrichAction -> Option<seq<ActionTx>>,
    writes: (nat, nat) -> bool)

  // A query may fail, and fails when minID does not fit a BIGINT; otherwise it
  // answers from the current tables.
  ghost predicate AnswersAt(env: Env, b: nat, txs: TxTable, minID: nat) {
    env.query(b, txs, minID).Ok? ==>
      minID <= MAX_BIGINT && IsBatch(env.snapshots(b), txs, minID, env.query(b, txs, minID).value)
  }

  ghost predicate Faithful(env: Env) {
    && (forall b: nat, txs: TxTable, minID: nat :: AnswersAt(env, b, txs, minID))
    && (forall b: nat :: StorableIds(env.snapshots(b)))
    && (forall a :: ChainAnswers(env, a))
  }

  // The chain client only returns rows of the action it was asked about.
  ghost predicate ChainAnswers(env: Env, a: EnrichAction) {
    env.chain(a).Some? ==> forall row :: row in env.chain(a).value ==> row.actionID == a.id
  }

  // The only queries that fail are those that must.
  ghost predicate Reliable(env: Env) {
    forall b: nat, txs: TxTable, minID: nat :: minID <= MAX_BIGINT ==> env.query(b, txs, minID).Ok?
  }

  // ---- What processing actions does to the table ----

  // The rows to write for an action, given the client's answer.
  function RowsFor(a: EnrichAction, answer: Option<seq<ActionTx>>): seq<ActionTx> {
    if answer.None? then []
    else if answer.value == [] then [Placeholder(a.id, a.createdAt)]
    else answer.value
  }

  function WriteRows(txs: TxTable, rows: seq<ActionTx>, writes: nat -> bool): TxTable
    decreases |rows|
  {
    if rows == [] then txs
    else
      var before := WriteRows(txs, rows[..|rows| - 1], writes);
      if writes(|rows| - 1) then Upserted(before, rows[|rows| - 1]) else before
  }

  function Lands(env: Env, id: nat): nat -> bool {
    (i: nat) => env.writes(id, i)
  }

  function ProcessOne(env: Env, txs: TxTable, a: EnrichAction): TxTable {
    WriteRows(txs, RowsFor(a, env.chain(a)), Lands(env, a.id))
  }

  function ProcessAll(env: Env, txs: TxTable, acts: seq<EnrichAction>): TxTable {
    if acts == [] then txs
    else ProcessOne(env, ProcessAll(env, txs, acts[..|acts| - 1]), acts[|acts| - 1])
  }

  // A register row for this list of rows lands in the table.
  ghost predicate LandsRegister(rows: seq<ActionTx>, writes: nat -> bool) {
    exists i :: 0 <= i < |rows| && rows[i].txType == "register" && writes(i)
  }

  lemma {:induction false} WriteRowsFrame(txs: TxTable, rows: seq<ActionTx>, writes: nat -> bool, id: nat)
    requires forall r :: r in rows ==> r.actionID == id
    ensures forall k: TxKey :: k.actionID != id ==>
              (k in WriteRows(txs, rows, writes) <==> k in txs)
              && (k in txs ==> WriteRows(txs, rows, writes)[k] == txs[k])
    ensures Registered(WriteRows(txs, rows, writes), id) <==> Registered(txs, id) || LandsRegister(rows, writes)
  {
    if rows != [] {
      var n := |rows| - 1;
      var init := rows[..n];
      WriteRowsFrame(txs, init, writes, id);
      assert rows[n] in rows;
      if rows[n].txType == "register" && writes(n) {
        assert LandsRegister(rows, writes);
      } else {
        assert LandsRegister(rows, writes) <==> LandsRegister(init, writes) by {
          if LandsRegister(rows, writes) {
            var i :| 0 <= i < |rows| && rows[i].txType == "register" && writes(i);
            assert init[i] == rows[i];
          }
          if LandsRegister(init, writes) {
            var i :| 0 <= i < |init| && init[i].txType == "register" && writes(i);
            assert rows[i] == init[i];
          }
        }
      }
    }
  }

  // The register write for an action lands during the run.
  ghost predicate Enriches(env: Env, a: EnrichAction) {
    LandsRegister(RowsFor(a, env.chain(a)), Lands(env, a.id))
  }

  lemma ProcessOneFrame(env: Env, txs: TxTable, a: EnrichAction)
    requires ChainAnswers(env, a)
    ensures forall k: TxKey :: k.actionID != a.id ==>
              (k in ProcessOne(env, txs, a) <==> k in txs)
              && (k in txs ==> ProcessOne(env, txs, a)[k] == txs[k])
    ensures Registered(ProcessOne(env, txs, a), a.id) <==> Registered(txs, a.id) || Enriches(env, a)
  {
    WriteRowsFrame(txs, RowsFor(a, env.chain(a)), Lands(env, a.id), a.id);
  }

  // Processing touches only the rows of the processed actions.
  lemma {:induction false} ProcessAllFrame(env: Env, txs: TxTable, acts: seq<EnrichAction>, k: TxKey)
    requires forall a :: a in acts ==> ChainAnswers(env, a)
    requires !Visits(acts, k.actionID)
    ensures k in ProcessAll(env, txs, acts) <==> k in txs
    ensures k in txs ==> ProcessAll(env, txs, acts)[k] == txs[k]
  {
    if acts != [] {
      var init, a := acts[..|acts| - 1], acts[|acts| - 1];
      assert acts == init + [a];
      assert a.id != k.actionID;
      forall i | 0 <= i < |init| ensures init[i].id != k.actionID {
        assert init[i] == acts[i];
      }
      ProcessAllFrame(env, txs, init, k);
      ProcessOneFrame(env, ProcessAll(env, txs, init), a);
    }
  }

  lemma {:induction false} ProcessAllAppend(env: Env, txs: TxTable, a: seq<EnrichAction>, b: seq<EnrichAction>)
    ensures ProcessAll(env, txs, a + b) == ProcessAll(env, ProcessAll(env, txs, a), b)
    decreases |b|
  {
    if b == [] {
      assert a + b == a;
    } else {
      assert (a + b)[..|a + b| - 1] == a + b[..|b| - 1];
      ProcessAllAppend(env, txs, a, b[..|b| - 1]);
    }
  }

  // ---- The run ----

  datatype Outcome = Outcome(failed: bool, visited: seq<EnrichAction>, txs: TxTable)

  lemma BatchBounds(env: Env, b: nat, txs: TxTable, minID: nat)
    requires Faithful(env) && env.query(b, txs, minID).Ok?
    ensures var batch := env.query(b, txs, minID).value;
            && minID <= MAX_BIGINT
            && IsBatch(env.snapshots(b), txs, minID, batch)
            && forall i :: 0 <= i < |batch| ==> minID <= batch[i].id <= MAX_BIGINT
  {
    assert AnswersAt(env, b, txs, minID);
    var batch := env.query(b, txs, minID).value;
    forall i | 0 <= i < |batch| ensures minID <= batch[i].id <= MAX_BIGINT {
      assert batch[i] in batch;
    }
  }

  // The run from batch b on, as a function of the table it starts with.
  ghost function RunFrom(env: Env, b: nat, txs: TxTable, minID: nat): Outcome
    requires Faithful(env)
    decreases MAX_BIGINT + 1 - minID
  {
    var answer := env.query(b, txs, minID);
    if answer.Err? then Outcome(true, [], txs)
    else
      BatchBounds(env, b, txs, minID);
      var batch := answer.value;
      var txs' := ProcessAll(env, txs, batch);
      if |batch| < BATCH_SIZE then Outcome(false, batch, txs')
      else
        var rest := RunFrom(env, b + 1, txs', batch[|batch| - 1].id + 1);
        Outcome(rest.failed, batch + rest.visited, rest.txs)
  }

  method PersistRows(store: TransactionStore, rows: seq<ActionTx>, writes: nat -> bool)
    requires forall r :: r in rows ==> r.actionID <= MAX_BIGINT
    modifies store
    ensures store.rows == WriteRows(old(store.rows), rows, writes)
  {
    for i := 0 to |rows|
      invariant store.rows == WriteRows(old(store.rows), rows[..i], writes)
    {
      assert rows[..i + 1][..i] == rows[..i];
      assert rows[i] in rows;
      // A failed write is logged and skipped.
      var _ := store.UpsertActionTransaction(rows[i], writes(i));
    }
    assert rows[..|rows|] == rows;
  }

  // The body of the inner loop for one action.
  method ProcessAction(store: TransactionStore, env: Env, action: EnrichAction)
    requires action.id <= MAX_BIGINT && ChainAnswers(env, action)
    modifies store
    ensures store.rows == ProcessOne(env, old(store.rows), action)
  {
    var txs := env.chain(action);
    if txs.None? {
      return;
    }
    if |txs.value| == 0 {
      var placeholder := Placeholder(action.id, action.createdAt);
      PersistRows(store, [placeholder], Lands(env, action.id));
      return;
    }
    PersistRows(store, txs.value, Lands(env, action.id));
  }

  // The inner loop over one batch.
  method ProcessBatch(store: TransactionStore, env: Env, actions: seq<EnrichAction>, minID: nat) returns (nextID: nat)
    requires forall a :: a in actions ==> a.id <= MAX_BIGINT && ChainAnswers(env, a)
    modifies store
    ensures store.rows == ProcessAll(env, old(store.rows), actions)
    ensures nextID == if actions == [] then minID else actions[|actions| - 1].id + 1
  {
    nextID := minID;
    for i := 0 to |actions|
      invariant store.rows == ProcessAll(env, old(store.rows), actions[..i])
      invariant nextID == if i == 0 then minID else actions[i - 1].id + 1
    {
      assert actions[..i + 1][..i] == actions[..i];
      var action := actions[i];
      assert action in actions;
      nextID := action.id + 1;
      ProcessAction(store, env, action);
    }
    assert actions[..|actions|] == actions;
  }

  // The whole run is what has been visited so far followed by the rest.
  ghost predicate ContinuesAs(whole: Outcome, visited: seq<EnrichAction>, rest: Outcome) {
    && whole.failed == rest.failed
    && whole.visited == visited + rest.visited
    && whole.txs == rest.txs
  }

  lemma RunEnds(env: Env, b: nat, txs: TxTable, minID: nat, whole: Outcome, visited: seq<EnrichAction>)
    requires Faithful(env) && ContinuesAs(whole, visited, RunFrom(env, b, txs, minID))
    requires env.query(b, txs, minID).Ok? ==> |env.query(b, txs, minID).value| < BATCH_SIZE
    ensures var answer := env.query(b, txs, minID);
            whole == if answer.Err? then Outcome(true, visited, txs)
                     else Outcome(false, visited + answer.value, ProcessAll(env, txs, answer.value))
  {
  }

  lemma RunGoesOn(env: Env, b: nat, txs: TxTable, minID: nat, whole: Outcome, visited: seq<EnrichAction>)
    requires Faithful(env) && ContinuesAs(whole, visited, RunFrom(env, b, txs, minID))
    requires env.query(b, txs, minID).Ok? && |env.query(b, txs, minID).value| >= BATCH_SIZE
    ensures var batch := env.query(b, txs, minID).value;
            ContinuesAs(whole, visited + batch,
                        RunFrom(env, b + 1, ProcessAll(env, txs, batch), batch[|batch| - 1].id + 1))
  {
  }

  lemma BatchIsProcessable(env: Env, b: nat, txs: TxTable, minID: nat)
    requires Faithful(env) && env.query(b, txs, minID).Ok?
    ensures var batch := env.query(b, txs, minID).value;
            && (forall a :: a in batch ==> a.id <= MAX_BIGINT && ChainAnswers(env, a))
            && (batch != [] ==> minID <= batch[|batch| - 1].id <= MAX_BIGINT)
            && minID <= MAX_BIGINT
            && ProcessAll(env, txs, []) == txs
  {
    BatchBounds(env, b, txs, minID);
    var batch := env.query(b, txs, minID).value;
    forall a | a in batch ensures a.id <= MAX_BIGINT && ChainAnswers(env, a) {
      var i :| 0 <= i < |batch| && batch[i] == a;
    }
  }

  // One round of the outer loop.  done says whether it was the last one.
  method RunBatch(store: TransactionStore, env: Env, b: nat, minID: nat, ghost whole: Outcome,
        visited: seq<EnrichAction>)
    returns (done: bool, failed: bool, seen: seq<EnrichAction>, nextID: nat)
    requires Faithful(env) && ContinuesAs(whole, visited, RunFrom(env, b, store.rows, minID))
    modifies store
    ensures done ==> whole == Outcome(failed, seen, store.rows)
    ensures !done ==> minID < nextID <= MAX_BIGINT + 1
    ensures !done ==> ContinuesAs(whole, seen, RunFrom(env, b + 1, store.rows, nextID))
  {
    ghost var before := store.rows;
    var answer := env.query(b, store.rows, minID);
    if answer.Err? {
      RunEnds(env, b, before, minID, whole, visited);
      return true, true, visited, minID;
    }
    BatchIsProcessable(env, b, before, minID);
    var actions := answer.value;
    if |actions| == 0 {
      RunEnds(env, b, before, minID, whole, visited);
      return true, false, visited, minID;
    }
    nextID := ProcessBatch(store, env, actions, minID);
    if |actions| < BATCH_SIZE {
      RunEnds(env, b, before, minID, whole, visited);
      return true, false, visited + actions, nextID;
    }
    RunGoesOn(env, b, before, minID, whole, visited);
    return false, false, visited + actions, nextID;
  }

  // The run.  Whatever the chain and the database do, it terminates, and minID
  // never exceeds MAX_BIGINT + 1 unless it started there, so it fits a uint64.
  method RunActionTxEnricher(store: TransactionStore, startID: nat, env: Env)
    returns (failed: bool, visited: seq<EnrichAction>)
    requires Faithful(env)
    modifies store
    ensures Outcome(failed, visited, store.rows) == RunFrom(env, 0, old(store.rows), startID)
  {
    var minID := startID;
    visited, failed := [], false;
    var batchNum := 0;
    ghost var whole := RunFrom(env, 0, old(store.rows), startID);
    var done := false;
    while !done
      invariant minID == startID || minID <= MAX_BIGINT + 1
      invariant done ==> whole == Outcome(failed, visited, store.rows)
      invariant !done ==> ContinuesAs(whole, visited, RunFrom(env, batchNum, store.rows, minID))
      decreases !done, MAX_BIGINT + 1 - minID
    {
      var nextID;
      done, failed, visited, nextID := RunBatch(store, env, batchNum, minID, whole, visited);
      if !done {
        minID := nextID;
        batchNum := batchNum + 1;
      }
    }
  }
}
