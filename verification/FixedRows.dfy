// When the stored rows of a registered action are final: the exact condition,
// for any number of enrichers.
module FixedRows {
  import opened Sql
  import opened Tables
  import opened Enricher
  import opened EnricherRuns

  // What the worker still has to write for the action is stored already.
  ghost predicate PendingStored(t: TxTable, w: Worker, id: nat) {
    w.job.Some? && w.job.value.id == id ==> forall tx :: tx in w.job.value.pending ==> Stored(t, tx)
  }

  // The worker neither has the action ahead of it nor holds a row of it that
  // the table lacks.
  ghost predicate Harmless(t: TxTable, w: Worker, id: nat) {
    !Visits(w.queue, id) && PendingStored(t, w, id)
  }

  ghost predicate Stable(s: State, id: nat) {
    forall w :: 0 <= w < |s.workers| ==> Harmless(s.txs, s.workers[w], id)
  }

  // These steps, if they can be taken, leave the action's rows as they are.
  ghost predicate Keeps(s: State, steps: seq<Step>, t: State, id: nat) {
    Leads(s, steps, t) ==> SameRows(s.txs, t.txs, id)
  }

  // Nothing that can happen from here on changes a row of the action.
  ghost predicate FixedForever(s: State, id: nat) {
    forall steps, t :: Keeps(s, steps, t, id)
  }

  // ---- Stable rows stay ----

  lemma StableFetch(s: State, step: Step, id: nat)
    requires Allowed(s, step) && step.Fetch? && Registered(s.txs, id) && Stable(s, id)
    ensures Stable(Do(s, step), id)
  {
    forall i | 0 <= i < |step.batch| ensures step.batch[i].id != id {
      assert step.batch[i] in step.batch;
    }
    assert Harmless(s.txs, Worker(step.batch, None), id);
  }

  lemma StableBegin(s: State, step: Step, id: nat)
    requires Allowed(s, step) && step.Begin? && Stable(s, id)
    ensures Stable(Do(s, step), id)
  {
    var q := s.workers[step.w].queue;
    assert Harmless(s.txs, s.workers[step.w], id);
    forall i | 0 <= i < |q| ensures q[i].id != id {
    }
    assert Harmless(s.txs, Do(s, step).workers[step.w], id);
  }

  // A landed row of the action was stored already; one of another action has
  // another key.
  lemma StableWrite(s: State, step: Step, id: nat)
    requires Owned(s) && Allowed(s, step) && step.Write? && Stable(s, id)
    ensures Stable(Do(s, step), id)
    ensures !LandsNews(s, step, id)
  {
    var worker := s.workers[step.w];
    var tx := worker.job.value.pending[0];
    var t := Do(s, step);
    assert OwnsRows(worker) && Harmless(s.txs, worker, id) && tx in worker.job.value.pending;
    forall w | 0 <= w < |t.workers| ensures Harmless(t.txs, t.workers[w], id) {
      assert OwnsRows(s.workers[w]) && Harmless(s.txs, s.workers[w], id);
      if t.workers[w].job.Some? && t.workers[w].job.value.id == id {
        forall r | r in t.workers[w].job.value.pending ensures Stored(t.txs, r) {
          assert r in s.workers[w].job.value.pending && Stored(s.txs, r);
        }
      }
    }
  }

  lemma StableStep(s: State, step: Step, id: nat)
    requires Owned(s) && Allowed(s, step) && Registered(s.txs, id) && Stable(s, id)
    ensures Registered(Do(s, step).txs, id) && Stable(Do(s, step), id)
    ensures SameRows(s.txs, Do(s, step).txs, id)
  {
    ChangesOnlyInFlight(s, step, id);
    match step
    case Fetch(_, _, _) => StableFetch(s, step, id);
    case Begin(_, _) => StableBegin(s, step, id);
    case Write(_, _) => StableWrite(s, step, id);
    case Restart(w) => assert Harmless(s.txs, IDLE, id);
    case SyncAction(_, _) =>
  }

  lemma {:induction false} StableLeads(s: State, steps: seq<Step>, t: State, id: nat)
    requires Owned(s) && Registered(s.txs, id) && Stable(s, id) && Leads(s, steps, t)
    ensures SameRows(s.txs, t.txs, id)
    decreases |steps|
  {
    if steps != [] {
      var m := Do(s, steps[0]);
      OwnedStep(s, steps[0]);
      StableStep(s, steps[0], id);
      StableLeads(m, steps[1..], t, id);
      SameRowsTransitive(s.txs, m.txs, t.txs, id);
    }
  }

  // ---- Other rows can change ----

  // The worker's first k pending writes have failed.
  function Skipped(s: State, w: nat, k: nat): State
    requires w < |s.workers| && s.workers[w].job.Some? && k <= |s.workers[w].job.value.pending|
  {
    var Job(id, pending) := s.workers[w].job.value;
    s.(workers := s.workers[w := Worker(s.workers[w].queue, JobFor(id, pending[k..]))])
  }

  lemma SkipOne(s: State, w: nat, k: nat)
    requires w < |s.workers| && s.workers[w].job.Some? && k < |s.workers[w].job.value.pending|
    ensures Allowed(Skipped(s, w, k), Write(w, false))
    ensures Do(Skipped(s, w, k), Write(w, false)) == Skipped(s, w, k + 1)
  {
    var pending := s.workers[w].job.value.pending;
    assert pending[k..][1..] == pending[k + 1..];
  }

  lemma {:induction false} SkipLeads(s: State, w: nat, k: nat) returns (steps: seq<Step>)
    requires w < |s.workers| && s.workers[w].job.Some? && s.workers[w].job.value.pending != []
    requires k <= |s.workers[w].job.value.pending|
    ensures Leads(s, steps, Skipped(s, w, k))
  {
    if k == 0 {
      var pending := s.workers[w].job.value.pending;
      assert pending[0..] == pending;
      assert Skipped(s, w, 0) == s;
      steps := [];
    } else {
      var before := SkipLeads(s, w, k - 1);
      SkipOne(s, w, k - 1);
      LeadsOne(Skipped(s, w, k - 1), Write(w, false));
      LeadsOn(s, before, Skipped(s, w, k - 1), [Write(w, false)], Skipped(s, w, k));
      steps := before + [Write(w, false)];
    }
  }

  // A pending row that the table lacks can be written.
  lemma PendingCanChange(s: State, w: nat, k: nat, id: nat) returns (steps: seq<Step>, t: State)
    requires Owned(s) && w < |s.workers| && s.workers[w].job.Some? && s.workers[w].job.value.id == id
    requires k < |s.workers[w].job.value.pending| && !Stored(s.txs, s.workers[w].job.value.pending[k])
    ensures Leads(s, steps, t) && !SameRows(s.txs, t.txs, id)
  {
    var tx := s.workers[w].job.value.pending[k];
    var m := Skipped(s, w, k);
    var before := SkipLeads(s, w, k);
    t := Do(m, Write(w, true));
    assert OwnsRows(s.workers[w]) && tx in s.workers[w].job.value.pending;
    LeadsOne(m, Write(w, true));
    LeadsOn(s, before, m, [Write(w, true)], t);
    steps := before + [Write(w, true)];
    UpsertChanges(s.txs, tx);
    assert t.txs == Upserted(s.txs, tx);
  }

  lemma UpsertChanges(t: TxTable, tx: ActionTx)
    requires !Stored(t, tx)
    ensures !SameRows(t, Upserted(t, tx), tx.actionID)
  {
    var key := TxKey(tx.actionID, tx.txType);
    assert key in Upserted(t, tx) && Upserted(t, tx)[key] == tx;
  }

  // The worker, without a job, has dropped the first k queued actions because
  // the client reported errors.
  function Dropped(s: State, w: nat, k: nat): State
    requires w < |s.workers| && k <= |s.workers[w].queue|
  {
    s.(workers := s.workers[w := Worker(s.workers[w].queue[k..], None)])
  }

  lemma DropOne(s: State, w: nat, k: nat)
    requires w < |s.workers| && k < |s.workers[w].queue|
    ensures Allowed(Dropped(s, w, k), Begin(w, None))
    ensures Do(Dropped(s, w, k), Begin(w, None)) == Dropped(s, w, k + 1)
  {
    var q := s.workers[w].queue;
    assert q[k..][1..] == q[k + 1..];
  }

  lemma {:induction false} DropLeads(s: State, w: nat, k: nat) returns (steps: seq<Step>)
    requires w < |s.workers| && OwnsRows(s.workers[w]) && k <= |s.workers[w].queue|
    ensures Leads(s, steps, Dropped(s, w, k))
  {
    var q := s.workers[w].queue;
    if k > 0 {
      var before := DropLeads(s, w, k - 1);
      DropOne(s, w, k - 1);
      LeadsOne(Dropped(s, w, k - 1), Begin(w, None));
      LeadsOn(s, before, Dropped(s, w, k - 1), [Begin(w, None)], Dropped(s, w, k));
      steps := before + [Begin(w, None)];
    } else {
      assert q[0..] == q;
      if s.workers[w].job.Some? {
        var n := |s.workers[w].job.value.pending|;
        steps := SkipLeads(s, w, n);
        assert Skipped(s, w, n) == Dropped(s, w, 0);
      } else {
        assert Dropped(s, w, 0) == s;
        steps := [];
      }
    }
  }

  // A register transaction the chain might report, other than the stored one.
  function OtherRegister(t: TxTable, id: nat): (tx: ActionTx)
    requires Registered(t, id)
    ensures tx.actionID == id && !Stored(t, tx)
  {
    var hash := if t[TxKey(id, "register")].txHash == "A" then "B" else "A";
    ActionTx(id, "register", hash, 7, 0, None, None, None, None, None, None, None, None)
  }

  // A queued action can get new rows, although it has been registered since.
  lemma QueuedCanChange(s: State, w: nat, k: nat, id: nat) returns (steps: seq<Step>, t: State)
    requires Owned(s) && Registered(s.txs, id)
    requires w < |s.workers| && k < |s.workers[w].queue| && s.workers[w].queue[k].id == id
    ensures Leads(s, steps, t) && !SameRows(s.txs, t.txs, id)
  {
    var tx := OtherRegister(s.txs, id);
    var m := Dropped(s, w, k);
    assert OwnsRows(s.workers[w]);
    var before := DropLeads(s, w, k);
    var begin := Begin(w, Some([tx]));
    assert m.workers[w].queue[0] == s.workers[w].queue[k];
    var m' := Do(m, begin);
    LeadsOne(m, begin);
    LeadsOn(s, before, m, [begin], m');
    t := Do(m', Write(w, true));
    LeadsOne(m', Write(w, true));
    LeadsOn(s, before + [begin], m', [Write(w, true)], t);
    steps := before + [begin] + [Write(w, true)];
    UpsertChanges(s.txs, tx);
  }

  lemma UnstableCanChange(s: State, id: nat) returns (steps: seq<Step>, t: State)
    requires Owned(s) && Registered(s.txs, id) && !Stable(s, id)
    ensures Leads(s, steps, t) && !SameRows(s.txs, t.txs, id)
  {
    var w :| 0 <= w < |s.workers| && !Harmless(s.txs, s.workers[w], id);
    if Visits(s.workers[w].queue, id) {
      var k :| 0 <= k < |s.workers[w].queue| && s.workers[w].queue[k].id == id;
      steps, t := QueuedCanChange(s, w, k, id);
    } else {
      var pending := s.workers[w].job.value.pending;
      var tx :| tx in pending && !Stored(s.txs, tx);
      var k :| 0 <= k < |pending| && pending[k] == tx;
      steps, t := PendingCanChange(s, w, k, id);
    }
  }

  // ---- The exact condition ----

  lemma FixedForeverIff(s: State, id: nat)
    requires Owned(s) && Registered(s.txs, id)
    ensures FixedForever(s, id) <==> Stable(s, id)
  {
    if Stable(s, id) {
      forall steps, t ensures Keeps(s, steps, t, id) {
        if Leads(s, steps, t) {
          StableLeads(s, steps, t, id);
        }
      }
    } else {
      var steps, t := UnstableCanChange(s, id);
      assert !Keeps(s, steps, t, id);
    }
  }

  // In every state of every run with any number of enrichers: the rows of a
  // registered action are final if and only if no worker has the action in its
  // queue and every row still pending for it is stored already.
  lemma RowsFixedIff(n: nat, states: seq<State>, steps: seq<Step>, i: nat, id: nat)
    requires IsRun(n, states, steps) && i < |states| && Registered(states[i].txs, id)
    ensures FixedForever(states[i], id) <==> Stable(states[i], id)
  {
    OwnedAlways(n, states, steps, i);
    FixedForeverIff(states[i], id);
  }

  // With one enricher a registered action is never queued, so its rows are
  // final if and only if every row still to be written for it is stored
  // already; in particular once it is no longer being processed.
  lemma OneEnricherFixedIff(n: nat, states: seq<State>, steps: seq<Step>, i: nat, id: nat)
    requires IsRun(n, states, steps) && n <= 1 && i < |states| && Registered(states[i].txs, id)
    ensures FixedForever(states[i], id) <==>
              forall w :: 0 <= w < |states[i].workers| ==> PendingStored(states[i].txs, states[i].workers[w], id)
    ensures !InFlight(states[i], id) ==> FixedForever(states[i], id)
  {
    var s := states[i];
    RowsFixedIff(n, states, steps, i, id);
    AloneAlways(n, states, steps, i);
    forall w | 0 <= w < |s.workers|
      ensures Harmless(s.txs, s.workers[w], id) <==> PendingStored(s.txs, s.workers[w], id)
    {
      assert WorkerInvariant(s.txs, s.workers[w]);
    }
  }

  // A restart between two writes can lose a row for good: the register row has
  // landed, the finalize row was found but is dropped with the worker, and
  // from then on nothing that happens stores it.
  lemma RestartLosesRow() returns (states: seq<State>, steps: seq<Step>)
    ensures IsRun(1, states, steps) && |steps| == 4 && steps[3] == Restart(0)
    ensures exists tx: ActionTx :: tx.actionID == 1 && tx.txType == "finalize"
                      && states[3].workers == [Worker([], Some(Job(1, [tx])))]
    ensures Registered(states[4].txs, 1) && TxKey(1, "finalize") !in states[4].txs && FixedForever(states[4], 1)
  {
    var register := RealRow("A");
    var finalize := register.(txType := "finalize", txHash := "B");
    var before, done := TwoRowsStored(register, finalize);
    assert StepAt(before, done, 3);
    states, steps := before[..4], done[..3];
    forall i | 0 <= i < 3 ensures StepAt(states, steps, i) {
      assert StepAt(before, done, i);
    }
    states, steps := RunOn(1, states, steps, before[3], Restart(0));
    OneEnricherFixedIff(1, states, steps, 4, 1);
  }
}
