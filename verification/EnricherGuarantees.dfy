// What a run of the enricher achieves, whatever the chain answers and whichever
// writes fail.
module EnricherGuarantees {
  import opened Sql
  import opened Tables
  import opened Client
  import opened Keyset
  import opened Enricher

  lemma BatchNotBeyond(batch: seq<EnrichAction>, id: nat)
    requires AscendingIds(batch) && batch != [] && batch[|batch| - 1].id < id
    ensures !Visits(batch, id)
  {
  }

  // What each proof needs of a batch: its order and bounds, and what it covers.
  lemma BatchOrder(env: Env, b: nat, txs: TxTable, minID: nat)
    requires Faithful(env) && env.query(b, txs, minID).Ok?
    ensures var batch := env.query(b, txs, minID).value;
            && |batch| <= BATCH_SIZE && AscendingIds(batch) && AllFrom(batch, minID)
            && (batch != [] ==> minID <= batch[|batch| - 1].id <= MAX_BIGINT)
  {
    BatchBounds(env, b, txs, minID);
  }

  lemma BatchCovers(env: Env, b: nat, txs: TxTable, minID: nat, id: nat)
    requires Faithful(env) && env.query(b, txs, minID).Ok?
    requires id in env.snapshots(b) && minID <= id && !Registered(txs, id)
    ensures var batch := env.query(b, txs, minID).value;
            Visits(batch, id) || (|batch| == BATCH_SIZE && batch[BATCH_SIZE - 1].id < id)
  {
    BatchBounds(env, b, txs, minID);
    assert id in Unenriched(env.snapshots(b), txs, minID);
  }

  lemma RunUnfold(env: Env, b: nat, txs: TxTable, minID: nat)
    requires Faithful(env) && env.query(b, txs, minID).Ok?
    ensures var batch := env.query(b, txs, minID).value;
            var txs' := ProcessAll(env, txs, batch);
            && |batch| <= BATCH_SIZE
            && (|batch| < BATCH_SIZE ==> RunFrom(env, b, txs, minID) == Outcome(false, batch, txs'))
            && (|batch| == BATCH_SIZE ==>
                  var rest := RunFrom(env, b + 1, txs', batch[BATCH_SIZE - 1].id + 1);
                  RunFrom(env, b, txs, minID) == Outcome(rest.failed, batch + rest.visited, rest.txs))
  {
    BatchBounds(env, b, txs, minID);
  }

  // A batch moves the cursor past everything it contains and leaves the rows
  // beyond the cursor alone.
  lemma BatchAdvances(env: Env, b: nat, txs: TxTable, minID: nat, id: nat)
    requires Faithful(env) && env.query(b, txs, minID).Ok?
    requires var batch := env.query(b, txs, minID).value; batch != [] && batch[|batch| - 1].id < id
    ensures Registered(ProcessAll(env, txs, env.query(b, txs, minID).value), id) <==> Registered(txs, id)
    ensures !Visits(env.query(b, txs, minID).value, id)
  {
    var batch := env.query(b, txs, minID).value;
    BatchBounds(env, b, txs, minID);
    BatchIsProcessable(env, b, txs, minID);
    BatchNotBeyond(batch, id);
    ProcessAllFrame(env, txs, batch, TxKey(id, "register"));
  }

  ghost predicate AllFrom(acts: seq<EnrichAction>, minID: nat) {
    forall i :: 0 <= i < |acts| ==> minID <= acts[i].id
  }

  lemma AscendingConcat(a: seq<EnrichAction>, b: seq<EnrichAction>, minID: nat)
    requires AscendingIds(a) && AscendingIds(b)
    requires a != [] && AllFrom(a, minID) && AllFrom(b, a[|a| - 1].id + 1)
    ensures AscendingIds(a + b) && AllFrom(a + b, minID)
  {
    forall i, j | 0 <= i < j < |a + b| ensures (a + b)[i].id < (a + b)[j].id {
      if i < |a| <= j {
        assert a[i].id <= a[|a| - 1].id;
      }
    }
  }

  // The run goes on after a full batch: with what table, from where, and with
  // what outcome.  Beyond the batch nothing has changed.
  lemma RunContinues(env: Env, b: nat, txs: TxTable, minID: nat)
    returns (txs': TxTable, next: nat, rest: Outcome)
    requires Faithful(env) && env.query(b, txs, minID).Ok? && |env.query(b, txs, minID).value| == BATCH_SIZE
    ensures var batch := env.query(b, txs, minID).value;
            && next == batch[BATCH_SIZE - 1].id + 1 && minID < next <= MAX_BIGINT + 1
            && rest == RunFrom(env, b + 1, txs', next)
            && RunFrom(env, b, txs, minID) == Outcome(rest.failed, batch + rest.visited, rest.txs)
    ensures forall id :: next <= id ==> (Registered(txs', id) <==> Registered(txs, id))
  {
    BatchOrder(env, b, txs, minID);
    RunUnfold(env, b, txs, minID);
    var batch := env.query(b, txs, minID).value;
    txs', next := ProcessAll(env, txs, batch), batch[BATCH_SIZE - 1].id + 1;
    rest := RunFrom(env, b + 1, txs', next);
    forall id | next <= id ensures Registered(txs', id) <==> Registered(txs, id) {
      BatchAdvances(env, b, txs, minID, id);
    }
  }

  // No action is visited twice, and the visits come in ascending id order.
  lemma {:induction false} VisitsAscend(env: Env, b: nat, txs: TxTable, minID: nat)
    requires Faithful(env)
    ensures AscendingIds(RunFrom(env, b, txs, minID).visited)
    ensures AllFrom(RunFrom(env, b, txs, minID).visited, minID)
    decreases MAX_BIGINT + 1 - minID
  {
    if env.query(b, txs, minID).Ok? {
      BatchOrder(env, b, txs, minID);
      var batch := env.query(b, txs, minID).value;
      if |batch| < BATCH_SIZE {
        RunUnfold(env, b, txs, minID);
      } else {
        var txs', next, rest := RunContinues(env, b, txs, minID);
        VisitsAscend(env, b + 1, txs', next);
        AscendingConcat(batch, rest.visited, minID);
      }
    }
  }

  // The action was in the table, and looked like this, when batch b was fetched:
  // its first supernode, if there is one, stands for all of them.
  ghost predicate SeenAt(env: Env, b: nat, a: EnrichAction) {
    && a.id in env.snapshots(b)
    && var row := env.snapshots(b)[a.id];
    && a.creator == row.creator && a.createdAt == row.createdAt
    && a.supernode == if row.superNodes.None? || row.superNodes.value == [] then "" else row.superNodes.value[0]
  }

  lemma BatchMember(env: Env, b: nat, txs: TxTable, minID: nat, a: EnrichAction)
    requires Faithful(env) && env.query(b, txs, minID).Ok? && a in env.query(b, txs, minID).value
    ensures !Registered(txs, a.id) && minID <= a.id && SeenAt(env, b, a)
  {
    assert AnswersAt(env, b, txs, minID);
    assert a.id in Unenriched(env.snapshots(b), txs, minID);
  }

  // What the run visits after its first batch lies beyond that batch.
  lemma LaterVisit(env: Env, b: nat, txs: TxTable, minID: nat, a: EnrichAction)
    requires Faithful(env) && env.query(b, txs, minID).Ok?
    requires a in RunFrom(env, b, txs, minID).visited && a !in env.query(b, txs, minID).value
    ensures var batch := env.query(b, txs, minID).value;
            && |batch| == BATCH_SIZE && minID <= batch[BATCH_SIZE - 1].id <= MAX_BIGINT
            && var next := batch[BATCH_SIZE - 1].id + 1;
            && a in RunFrom(env, b + 1, ProcessAll(env, txs, batch), next).visited
            && next <= a.id
  {
    BatchOrder(env, b, txs, minID);
    RunUnfold(env, b, txs, minID);
    var batch := env.query(b, txs, minID).value;
    var next := batch[BATCH_SIZE - 1].id + 1;
    var rest := RunFrom(env, b + 1, ProcessAll(env, txs, batch), next).visited;
    assert a in rest;
    VisitsAscend(env, b + 1, ProcessAll(env, txs, batch), next);
    var i :| 0 <= i < |rest| && rest[i] == a;
  }

  lemma VisitNeedsAnswer(env: Env, b: nat, txs: TxTable, minID: nat, a: EnrichAction)
    requires Faithful(env) && a in RunFrom(env, b, txs, minID).visited
    ensures env.query(b, txs, minID).Ok?
  {
  }

  // A visited action had no register row when the run started, although the
  // run itself writes register rows and decides per batch.
  lemma {:induction false} VisitsOnlyUnenriched(env: Env, b: nat, txs: TxTable, minID: nat, a: EnrichAction)
    requires Faithful(env)
    requires a in RunFrom(env, b, txs, minID).visited
    ensures !Registered(txs, a.id) && minID <= a.id
    ensures exists b': nat :: b <= b' && SeenAt(env, b', a)
    decreases MAX_BIGINT + 1 - minID
  {
    VisitNeedsAnswer(env, b, txs, minID, a);
    if a in env.query(b, txs, minID).value {
      BatchMember(env, b, txs, minID, a);
    } else {
      LaterVisit(env, b, txs, minID, a);
      var batch := env.query(b, txs, minID).value;
      VisitsOnlyUnenriched(env, b + 1, ProcessAll(env, txs, batch), batch[BATCH_SIZE - 1].id + 1, a);
      BatchAdvances(env, b, txs, minID, a.id);
    }
  }

  // The cursor minID = ActionID + 1 stays within 2^63, so it never wraps a
  // uint64.
  lemma CursorNeverWraps(env: Env, b: nat, txs: TxTable, minID: nat, a: EnrichAction)
    requires Faithful(env)
    requires a in RunFrom(env, b, txs, minID).visited
    ensures a.id + 1 <= 0x8000_0000_0000_0000
  {
    VisitsOnlyUnenriched(env, b, txs, minID, a);
    var b': nat :| b <= b' && SeenAt(env, b', a);
    assert StorableIds(env.snapshots(b'));
  }

  // The table after the run is the table after processing the visited actions
  // one by one, as if they had been fetched in a single query.
  lemma {:induction false} RunProcessesVisited(env: Env, b: nat, txs: TxTable, minID: nat)
    requires Faithful(env)
    ensures RunFrom(env, b, txs, minID).txs == ProcessAll(env, txs, RunFrom(env, b, txs, minID).visited)
    decreases MAX_BIGINT + 1 - minID
  {
    if env.query(b, txs, minID).Ok? {
      BatchOrder(env, b, txs, minID);
      RunUnfold(env, b, txs, minID);
      var batch := env.query(b, txs, minID).value;
      if |batch| == BATCH_SIZE {
        var txs' := ProcessAll(env, txs, batch);
        var next := batch[BATCH_SIZE - 1].id + 1;
        RunProcessesVisited(env, b + 1, txs', next);
        ProcessAllAppend(env, txs, batch, RunFrom(env, b + 1, txs', next).visited);
      }
    }
  }

  lemma VisitsJoin(a: seq<EnrichAction>, b: seq<EnrichAction>, id: nat)
    ensures Visits(a + b, id) <==> Visits(a, id) || Visits(b, id)
  {
    forall i | 0 <= i < |a| && a[i].id == id ensures Visits(a + b, id) {
      assert (a + b)[i] == a[i];
    }
    forall i | 0 <= i < |b| && b[i].id == id ensures Visits(a + b, id) {
      assert (a + b)[|a| + i] == b[i];
    }
  }

  // Nothing is missed: an action that stays in the table throughout, lies at or
  // beyond the start and has no register row is visited, unless a query fails
  // that need not have failed.  Other actions may come and be updated between
  // batches, the run's own writes shrink the query, and any write may fail.
  lemma {:induction false} RunComplete(env: Env, b: nat, txs: TxTable, minID: nat, id: nat)
    requires Faithful(env)
    requires Reliable(env) || !RunFrom(env, b, txs, minID).failed
    requires forall b': nat :: b <= b' ==> id in env.snapshots(b')
    requires minID <= id && !Registered(txs, id)
    ensures Visits(RunFrom(env, b, txs, minID).visited, id)
    decreases MAX_BIGINT + 1 - minID
  {
    assert id in env.snapshots(b) && StorableIds(env.snapshots(b));
    assert env.query(b, txs, minID).Ok?;
    BatchCovers(env, b, txs, minID, id);
    var batch := env.query(b, txs, minID).value;
    BatchOrder(env, b, txs, minID);
    if |batch| < BATCH_SIZE {
      RunUnfold(env, b, txs, minID);
    } else {
      var txs', next, rest := RunContinues(env, b, txs, minID);
      VisitsJoin(batch, rest.visited, id);
      if !Visits(batch, id) {
        RunComplete(env, b + 1, txs', next, id);
      }
    }
  }

  // Unless a query fails needlessly, a run fails exactly when it starts beyond
  // the BIGINT range, or when a full last batch ends with the largest BIGINT,
  // so that the next cursor is no BIGINT.
  lemma {:induction false} RunFailsIff(env: Env, b: nat, txs: TxTable, minID: nat)
    requires Faithful(env) && Reliable(env)
    ensures var run := RunFrom(env, b, txs, minID);
            && (minID > MAX_BIGINT ==> run.visited == [])
            && (run.failed <==> minID > MAX_BIGINT || EndsAtLimit(run.visited))
    decreases MAX_BIGINT + 1 - minID
  {
    assert AnswersAt(env, b, txs, minID);
    if minID <= MAX_BIGINT {
      assert env.query(b, txs, minID).Ok?;
      BatchOrder(env, b, txs, minID);
      var batch := env.query(b, txs, minID).value;
      if |batch| < BATCH_SIZE {
        RunUnfold(env, b, txs, minID);
      } else {
        var txs', next, rest := RunContinues(env, b, txs, minID);
        RunFailsIff(env, b + 1, txs', next);
        LimitJoin(batch, rest.visited);
      }
    }
  }

  ghost predicate EndsAtLimit(visited: seq<EnrichAction>) {
    visited != [] && |visited| % 50 == 0 && visited[|visited| - 1].id == 0x7fff_ffff_ffff_ffff
  }

  lemma LimitJoin(batch: seq<EnrichAction>, rest: seq<EnrichAction>)
    requires |batch| == 50
    ensures EndsAtLimit(batch + rest) <==>
              if rest == [] then batch[49].id == 0x7fff_ffff_ffff_ffff else EndsAtLimit(rest)
  {
    assert |batch + rest| % 50 == |rest| % 50;
    assert rest == [] ==> batch + rest == batch;
  }

  function IdRank(id: nat): real {
    id as real
  }

  lemma IdRankInjective()
    ensures Injective(IdRank)
  {
    forall a ensures InjectiveAt(IdRank, a) {
    }
  }

  function IdsOf(acts: seq<EnrichAction>): (ids: seq<nat>)
    ensures |ids| == |acts|
    ensures forall i :: 0 <= i < |ids| ==> ids[i] == acts[i].id
  {
    seq(|acts|, i requires 0 <= i < |acts| => acts[i].id)
  }

  ghost predicate FixedActions(env: Env, actions: ActionTable) {
    forall b: nat :: env.snapshots(b) == actions
  }

  // On a fixed actions table the batched, early-exiting run visits exactly what
  // one unlimited query at the start would list, in the same order.
  lemma {:induction false} RunVisitsEverything(env: Env, actions: ActionTable, txs: TxTable, startID: nat)
    requires Faithful(env) && Reliable(env) && FixedActions(env, actions)
    ensures IdsOf(RunFrom(env, 0, txs, startID).visited) == Listing(IdRank, Unenriched(actions, txs, startID))
  {
    var visited := RunFrom(env, 0, txs, startID).visited;
    var ids := IdsOf(visited);
    var wanted := Unenriched(actions, txs, startID);
    VisitsAscend(env, 0, txs, startID);
    forall id ensures id in ids <==> id in wanted {
      if id in ids {
        var i :| 0 <= i < |ids| && ids[i] == id;
        assert visited[i] in visited;
        VisitsOnlyUnenriched(env, 0, txs, startID, visited[i]);
      }
      if id in wanted {
        RunComplete(env, 0, txs, startID, id);
        var i :| 0 <= i < |visited| && visited[i].id == id;
        assert ids[i] == id;
      }
    }
    IdRankInjective();
    ListingIsListing(IdRank, wanted);
    ListingUnique(IdRank, wanted, ids, Listing(IdRank, wanted));
  }

  lemma {:induction false} ProcessedIsRegisteredIff(env: Env, txs: TxTable, acts: seq<EnrichAction>, i: int)
    requires forall a :: a in acts ==> ChainAnswers(env, a)
    requires AscendingIds(acts) && 0 <= i < |acts|
    ensures Registered(ProcessAll(env, txs, acts), acts[i].id) <==>
              Registered(txs, acts[i].id) || Enriches(env, acts[i])
  {
    var init, a := acts[..|acts| - 1], acts[|acts| - 1];
    forall x | x in init ensures ChainAnswers(env, x) {
      assert x in acts;
    }
    ProcessOneFrame(env, ProcessAll(env, txs, init), a);
    if i == |acts| - 1 {
      ProcessAllFrame(env, txs, init, TxKey(a.id, "register"));
    } else {
      ProcessedIsRegisteredIff(env, txs, init, i);
      assert a.id != init[i].id;
      assert Registered(ProcessAll(env, txs, acts), acts[i].id) <==> Registered(ProcessAll(env, txs, init), acts[i].id);
    }
  }

  ghost predicate FoundRegisterLands(env: Env, a: EnrichAction)
    requires env.chain(a).Some?
  {
    var rows := env.chain(a).value;
    exists i: nat :: i < |rows| && rows[i].txType == "register" && env.writes(a.id, i)
  }

  // When a run registers an action: the client found nothing and the
  // placeholder lands, or one of the register rows it found lands.
  lemma EnrichesIff(env: Env, a: EnrichAction)
    ensures Enriches(env, a) <==>
              || (env.chain(a) == Some([]) && env.writes(a.id, 0))
              || (env.chain(a).Some? && FoundRegisterLands(env, a))
  {
    if env.chain(a) == Some([]) && env.writes(a.id, 0) {
      var rows := RowsFor(a, env.chain(a));
      assert rows[0].txType == "register" && Lands(env, a.id)(0);
    }
    if env.chain(a).Some? {
      forall i: nat | i < |env.chain(a).value| && env.chain(a).value[i].txType == "register" && env.writes(a.id, i)
        ensures Enriches(env, a)
      {
        var rows := RowsFor(a, env.chain(a));
        assert rows[i].txType == "register" && Lands(env, a.id)(i);
      }
    }
  }

  // What is left for the next run: the actions for which no register write
  // landed.  An action whose register query failed while another query found a
  // transaction is among them; one marked by a placeholder is not.
  lemma {:induction false} LeftForNextRun(env: Env, actions: ActionTable, txs: TxTable, startID: nat, id: nat)
    requires Faithful(env) && Reliable(env) && FixedActions(env, actions)
    ensures id in Unenriched(actions, RunFrom(env, 0, txs, startID).txs, startID) <==>
              id in Unenriched(actions, txs, startID) && !Enriches(env, View(id, actions[id]))
  {
    var visited := RunFrom(env, 0, txs, startID).visited;
    RunProcessesVisited(env, 0, txs, startID);
    VisitsAscend(env, 0, txs, startID);
    forall a | a in visited ensures ChainAnswers(env, a) {
    }
    if id in Unenriched(actions, txs, startID) {
      RunComplete(env, 0, txs, startID, id);
      var i :| 0 <= i < |visited| && visited[i].id == id;
      VisitsOnlyUnenriched(env, 0, txs, startID, visited[i]);
      ProcessedIsRegisteredIff(env, txs, visited, i);
    } else {
      assert !Visits(visited, id) by {
        forall i | 0 <= i < |visited| ensures visited[i].id != id {
          VisitsOnlyUnenriched(env, 0, txs, startID, visited[i]);
        }
      }
      ProcessAllFrame(env, txs, visited, TxKey(id, "register"));
    }
  }
}
