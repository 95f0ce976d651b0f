// The enricher loop is one of the runs of the interleaving model: every
// statement it issues is an allowed step, so what holds over all runs holds
// for the loop as written.
module EnricherRefinement {
  import opened Sql
  import opened Tables
  import opened Client
  import opened Enricher
  import opened EnricherGuarantees
  import opened EnricherRuns

  function Solo(actions: ActionTable, txs: TxTable, w: Worker): State {
    State(actions, txs, [w])
  }

  function Shifted(writes: nat -> bool): nat -> bool {
    (i: nat) => writes(i + 1)
  }

  function WriteFirst(txs: TxTable, rows: seq<ActionTx>, writes: nat -> bool): TxTable
    requires rows != []
  {
    if writes(0) then Upserted(txs, rows[0]) else txs
  }

  // Writing rows front to back.
  lemma {:induction false} WriteRowsFront(txs: TxTable, rows: seq<ActionTx>, writes: nat -> bool)
    requires rows != []
    ensures WriteRows(txs, rows, writes) == WriteRows(WriteFirst(txs, rows, writes), rows[1..], Shifted(writes))
    decreases |rows|
  {
    var n := |rows| - 1;
    if n == 0 {
      assert rows[..0] == [] && rows[1..] == [];
    } else {
      WriteRowsFront(txs, rows[..n], writes);
      assert rows[..n][1..] == rows[1..][..n - 1];
      assert rows[1..][n - 1] == rows[n];
    }
  }

  lemma {:induction false} WritesLead(actions: ActionTable, txs: TxTable, queue: seq<EnrichAction>, id: nat,
                                      rows: seq<ActionTx>, writes: nat -> bool)
    returns (steps: seq<EnricherRuns.Step>)
    ensures Leads(Solo(actions, txs, Worker(queue, JobFor(id, rows))), steps,
                  Solo(actions, WriteRows(txs, rows, writes), Worker(queue, None)))
    decreases |rows|
  {
    if rows == [] {
      steps := [];
    } else {
      var s := Solo(actions, txs, Worker(queue, JobFor(id, rows)));
      var step := EnricherRuns.Write(0, writes(0));
      var txs' := WriteFirst(txs, rows, writes);
      LeadsOne(s, step);
      assert Do(s, step) == Solo(actions, txs', Worker(queue, JobFor(id, rows[1..])));
      var rest := WritesLead(actions, txs', queue, id, rows[1..], Shifted(writes));
      WriteRowsFront(txs, rows, writes);
      steps := [step] + rest;
      LeadsOn(s, [step], Do(s, step), rest, Solo(actions, WriteRows(txs, rows, writes), Worker(queue, None)));
    }
  }

  lemma ActionLeads(env: Env, actions: ActionTable, txs: TxTable, queue: seq<EnrichAction>)
    returns (steps: seq<EnricherRuns.Step>)
    requires queue != [] && ChainAnswer(queue[0], env.chain(queue[0]))
    ensures Leads(Solo(actions, txs, Worker(queue, None)), steps,
                  Solo(actions, ProcessOne(env, txs, queue[0]), Worker(queue[1..], None)))
  {
    var a := queue[0];
    var rows := RowsFor(a, env.chain(a));
    var s := Solo(actions, txs, Worker(queue, None));
    var step := EnricherRuns.Begin(0, env.chain(a));
    LeadsOne(s, step);
    assert Do(s, step) == Solo(actions, txs, Worker(queue[1..], JobFor(a.id, rows)));
    var rest := WritesLead(actions, txs, queue[1..], a.id, rows, Lands(env, a.id));
    steps := [step] + rest;
    LeadsOn(s, [step], Do(s, step), rest, Solo(actions, ProcessOne(env, txs, a), Worker(queue[1..], None)));
  }

  lemma {:induction false} BatchLeads(env: Env, actions: ActionTable, txs: TxTable, queue: seq<EnrichAction>)
    returns (steps: seq<EnricherRuns.Step>)
    requires forall a :: a in queue ==> ChainAnswer(a, env.chain(a))
    ensures Leads(Solo(actions, txs, Worker(queue, None)), steps, Solo(actions, ProcessAll(env, txs, queue), IDLE))
    decreases |queue|
  {
    if queue == [] {
      steps := [];
    } else {
      var first := ActionLeads(env, actions, txs, queue);
      var txs' := ProcessOne(env, txs, queue[0]);
      var rest := BatchLeads(env, actions, txs', queue[1..]);
      assert queue == [queue[0]] + queue[1..];
      ProcessAllAppend(env, txs, [queue[0]], queue[1..]);
      assert [queue[0]][..0] == [];
      assert ProcessAll(env, txs, [queue[0]]) == txs';
      steps := first + rest;
      LeadsOn(Solo(actions, txs, Worker(queue, None)), first, Solo(actions, txs', Worker(queue[1..], None)), rest,
              Solo(actions, ProcessAll(env, txs, queue), IDLE));
    }
  }

  ghost predicate ChainClient(env: Env) {
    forall a :: ChainAnswer(a, env.chain(a))
  }

  // One statement of the action sync.
  datatype Sync = Sync(id: nat, row: Action)

  function SyncAll(actions: ActionTable, syncs: seq<Sync>): ActionTable
    decreases |syncs|
  {
    if syncs == [] then actions
    else SyncAll(UpsertedAction(actions, syncs[0].id, syncs[0].row), syncs[1..])
  }

  // Between the query of batch b and the next one the actions table changes
  // only by action syncs.
  ghost predicate SyncedAt(env: Env, syncs: nat -> seq<Sync>, b: nat) {
    env.snapshots(b + 1) == SyncAll(env.snapshots(b), syncs(b))
  }

  ghost predicate Synced(env: Env, syncs: nat -> seq<Sync>) {
    forall b: nat :: SyncedAt(env, syncs, b)
  }

  lemma {:induction false} SyncsLead(actions: ActionTable, txs: TxTable, syncs: seq<Sync>)
    returns (steps: seq<EnricherRuns.Step>)
    ensures Leads(Solo(actions, txs, IDLE), steps, Solo(SyncAll(actions, syncs), txs, IDLE))
    decreases |syncs|
  {
    if syncs == [] {
      steps := [];
    } else {
      var s := Solo(actions, txs, IDLE);
      var step := EnricherRuns.SyncAction(syncs[0].id, syncs[0].row);
      LeadsOne(s, step);
      var rest := SyncsLead(UpsertedAction(actions, syncs[0].id, syncs[0].row), txs, syncs[1..]);
      steps := [step] + rest;
      LeadsOn(s, [step], Do(s, step), rest, Solo(SyncAll(actions, syncs), txs, IDLE));
    }
  }

  lemma FetchedLeads(env: Env, b: nat, txs: TxTable, minID: nat) returns (steps: seq<EnricherRuns.Step>)
    requires Faithful(env) && ChainClient(env) && env.query(b, txs, minID).Ok?
    ensures Leads(Solo(env.snapshots(b), txs, IDLE), steps,
                  Solo(env.snapshots(b), ProcessAll(env, txs, env.query(b, txs, minID).value), IDLE))
  {
    var actions := env.snapshots(b);
    var batch := env.query(b, txs, minID).value;
    assert AnswersAt(env, b, txs, minID);
    var s := Solo(actions, txs, IDLE);
    var step := EnricherRuns.Fetch(0, minID, batch);
    LeadsOne(s, step);
    assert Do(s, step) == Solo(actions, txs, Worker(batch, None));
    var rest := BatchLeads(env, actions, txs, batch);
    steps := [step] + rest;
    LeadsOn(s, [step], Do(s, step), rest, Solo(actions, ProcessAll(env, txs, batch), IDLE));
  }

  // One round of the loop, and the syncs before the next one.
  lemma RoundLeads(env: Env, syncs: nat -> seq<Sync>, b: nat, txs: TxTable, minID: nat)
    returns (steps: seq<EnricherRuns.Step>)
    requires Faithful(env) && Synced(env, syncs) && ChainClient(env) && env.query(b, txs, minID).Ok?
    ensures Leads(Solo(env.snapshots(b), txs, IDLE), steps,
                  Solo(env.snapshots(b + 1), ProcessAll(env, txs, env.query(b, txs, minID).value), IDLE))
  {
    var txs' := ProcessAll(env, txs, env.query(b, txs, minID).value);
    var round := FetchedLeads(env, b, txs, minID);
    var rest := SyncsLead(env.snapshots(b), txs', syncs(b));
    assert SyncedAt(env, syncs, b);
    steps := round + rest;
    LeadsOn(Solo(env.snapshots(b), txs, IDLE), round, Solo(env.snapshots(b), txs', IDLE), rest,
            Solo(env.snapshots(b + 1), txs', IDLE));
  }

  // The whole loop, from an idle worker to an idle worker, with the loop's
  // resulting table, while the action sync goes on.
  lemma {:induction false} LoopIsARun(env: Env, syncs: nat -> seq<Sync>, b: nat, txs: TxTable, minID: nat)
    returns (steps: seq<EnricherRuns.Step>, last: nat)
    requires Faithful(env) && Synced(env, syncs) && ChainClient(env)
    ensures b <= last
    ensures Leads(Solo(env.snapshots(b), txs, IDLE), steps,
                  Solo(env.snapshots(last), RunFrom(env, b, txs, minID).txs, IDLE))
    decreases MAX_BIGINT + 1 - minID
  {
    if env.query(b, txs, minID).Err? {
      steps, last := [], b;
    } else {
      BatchOrder(env, b, txs, minID);
      RunUnfold(env, b, txs, minID);
      var batch := env.query(b, txs, minID).value;
      if |batch| < BATCH_SIZE {
        steps := FetchedLeads(env, b, txs, minID);
        last := b;
      } else {
        var txs' := ProcessAll(env, txs, batch);
        var round := RoundLeads(env, syncs, b, txs, minID);
        var rest;
        rest, last := LoopIsARun(env, syncs, b + 1, txs', batch[BATCH_SIZE - 1].id + 1);
        LeadsOn(Solo(env.snapshots(b), txs, IDLE), round, Solo(env.snapshots(b + 1), txs', IDLE), rest,
                Solo(env.snapshots(last), RunFrom(env, b, txs, minID).txs, IDLE));
        steps := round + rest;
      }
    }
  }

  // After any run of a single enricher that ended idle, a further pass of the
  // loop, with the action sync going on, leaves the rows alone of every action
  // registered before it.
  lemma {:induction false} LoopKeepsSettled(env: Env, syncs: nat -> seq<Sync>, states: seq<State>,
        steps: seq<EnricherRuns.Step>, minID: nat, id: nat)
    requires IsRun(1, states, steps)
    requires Faithful(env) && Synced(env, syncs) && ChainClient(env)
    requires states[|steps|] == Solo(env.snapshots(0), states[|steps|].txs, IDLE)
    requires Registered(states[|steps|].txs, id)
    ensures SameRows(states[|steps|].txs, RunFrom(env, 0, states[|steps|].txs, minID).txs, id)
  {
    var s := states[|steps|];
    var more, last := LoopIsARun(env, syncs, 0, s.txs, minID);
    var t := Solo(env.snapshots(last), RunFrom(env, 0, s.txs, minID).txs, IDLE);
    var states' := LeadsExtendsRun(1, states, steps, more, t);
    assert states'[|steps|] == s && Settled(s, id);
    SettledForever(1, states', steps + more, |steps|, |steps + more|, id);
  }
}
