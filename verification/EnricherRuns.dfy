// Every run of the system: any number of enricher workers (one per replica),
// interleaved with action syncs and restarts, one SQL statement at a time.
module EnricherRuns {
  import opened Sql
  import opened Tables
  import opened Transfers
  import opened Client
  import opened Enricher

  // The rows a worker still has to write for the action it is processing.
  datatype Job = Job(id: nat, pending: seq<ActionTx>)

  // The unprocessed rest of the batch, and the action in hand.
  datatype Worker = Worker(queue: seq<EnrichAction>, job: Option<Job>)

  const IDLE := Worker([], None)

  datatype State = State(actions: ActionTable, txs: TxTable, workers: seq<Worker>)

  datatype Step =
    | Fetch(w: nat, minID: nat, batch: seq<EnrichAction>)
    | Begin(w: nat, answer: Option<seq<ActionTx>>)
    | Write(w: nat, lands: bool)
    | Restart(w: nat)
    | SyncAction(id: nat, row: Action)

  ghost predicate Init(s: State, n: nat) {
    s.txs == map[] && |s.workers| == n && forall w :: 0 <= w < n ==> s.workers[w] == IDLE
  }

  // What the chain client may answer for an action.  The hash of a transaction
  // on the chain is never the placeholder marker.
  ghost predicate ChainAnswer(a: EnrichAction, answer: Option<seq<ActionTx>>) {
    answer.Some? ==> forall row :: row in answer.value ==> ChainRow(row, a.id) && !IsPlaceholder(row)
  }

  predicate CanAct(s: State, step: Step) {
    match step
    case Fetch(w, _, _) => w < |s.workers| && s.workers[w] == IDLE
    case Begin(w, _) => w < |s.workers| && s.workers[w].job.None? && s.workers[w].queue != []
    case Write(w, _) => w < |s.workers| && s.workers[w].job.Some? && s.workers[w].job.value.pending != []
    case Restart(w) => w < |s.workers|
    case SyncAction(_, _) => true
  }

  ghost predicate Allowed(s: State, step: Step) {
    && CanAct(s, step)
    && (step.Fetch? ==> IsBatch(s.actions, s.txs, step.minID, step.batch))
    && (step.Begin? ==> ChainAnswer(s.workers[step.w].queue[0], step.answer))
  }

  function JobFor(id: nat, pending: seq<ActionTx>): Option<Job> {
    if pending == [] then None else Some(Job(id, pending))
  }

  function Do(s: State, step: Step): State
    requires CanAct(s, step)
  {
    match step
    case Fetch(w, _, batch) => s.(workers := s.workers[w := Worker(batch, None)])
    case Begin(w, answer) =>
      var q := s.workers[w].queue;
      s.(workers := s.workers[w := Worker(q[1..], JobFor(q[0].id, RowsFor(q[0], answer)))])
    case Write(w, lands) =>
      var Job(id, pending) := s.workers[w].job.value;
      s.(txs := if lands then Upserted(s.txs, pending[0]) else s.txs,
         workers := s.workers[w := Worker(s.workers[w].queue, JobFor(id, pending[1..]))])
    case Restart(w) => s.(workers := s.workers[w := IDLE])
    case SyncAction(id, row) => s.(actions := UpsertedAction(s.actions, id, row))
  }

  ghost predicate StepAt(states: seq<State>, steps: seq<Step>, i: nat)
    requires i < |steps| && |states| == |steps| + 1
  {
    Allowed(states[i], steps[i]) && states[i + 1] == Do(states[i], steps[i])
  }

  // states[i] is the state before steps[i].
  ghost predicate IsRun(n: nat, states: seq<State>, steps: seq<Step>) {
    && |states| == |steps| + 1
    && Init(states[0], n)
    && forall i :: 0 <= i < |steps| ==> StepAt(states, steps, i)
  }

  // ---- Continuations ----

  // The steps lead from s to t.
  ghost predicate Leads(s: State, steps: seq<Step>, t: State)
    decreases |steps|
  {
    if steps == [] then s == t
    else Allowed(s, steps[0]) && Leads(Do(s, steps[0]), steps[1..], t)
  }

  lemma {:induction false} LeadsOn(s: State, a: seq<Step>, m: State, b: seq<Step>, t: State)
    requires Leads(s, a, m) && Leads(m, b, t)
    ensures Leads(s, a + b, t)
    decreases |a|
  {
    if a == [] {
      assert a + b == b;
    } else {
      LeadsOn(Do(s, a[0]), a[1..], m, b, t);
      assert (a + b)[1..] == a[1..] + b;
    }
  }

  lemma LeadsOne(s: State, step: Step)
    requires Allowed(s, step)
    ensures Leads(s, [step], Do(s, step))
  {
    assert [step][1..] == [];
  }

  // Steps that continue a run make a longer run.
  lemma {:induction false} LeadsExtendsRun(n: nat, states: seq<State>, done: seq<Step>,
                                           steps: seq<Step>, t: State)
    returns (states': seq<State>)
    requires IsRun(n, states, done) && Leads(states[|done|], steps, t)
    ensures IsRun(n, states', done + steps) && states'[|done + steps|] == t
    ensures states <= states'
    decreases |steps|
  {
    if steps == [] {
      states' := states;
      assert done + steps == done;
    } else {
      var next := states + [Do(states[|done|], steps[0])];
      var more := done + [steps[0]];
      forall i | 0 <= i < |more| ensures StepAt(next, more, i) {
        if i < |done| {
          assert StepAt(states, done, i);
        }
      }
      states' := LeadsExtendsRun(n, next, more, steps[1..], t);
      assert more + steps[1..] == done + steps;
    }
  }

  // ---- Any number of workers: the rows that get stored ----

  ghost predicate GoodRow(tx: ActionTx) {
    KnownType(tx.txType) && PriceShape(tx.actionPrice, tx.actionPriceDenom)
  }

  ghost predicate GoodTable(t: TxTable) {
    WellKeyed(t) && forall k :: k in t ==> GoodRow(t[k])
  }

  ghost predicate GoodWorker(w: Worker) {
    w.job.Some? ==> forall tx :: tx in w.job.value.pending ==> GoodRow(tx)
  }

  ghost predicate GoodJobs(ws: seq<Worker>) {
    forall w :: 0 <= w < |ws| ==> GoodWorker(ws[w])
  }

  lemma GoodStep(s: State, step: Step)
    requires GoodTable(s.txs) && GoodJobs(s.workers) && Allowed(s, step)
    ensures GoodTable(Do(s, step).txs) && GoodJobs(Do(s, step).workers)
  {
    match step
    case Fetch(w, _, batch) => assert GoodWorker(Worker(batch, None));
    case Begin(w, answer) =>
      var q := s.workers[w].queue;
      forall tx | tx in RowsFor(q[0], answer) ensures GoodRow(tx) {
      }
      assert GoodWorker(Do(s, step).workers[w]);
    case Write(w, lands) =>
      assert GoodWorker(s.workers[w]);
      assert s.workers[w].job.value.pending[0] in s.workers[w].job.value.pending;
      assert GoodWorker(Do(s, step).workers[w]);
    case Restart(w) => assert GoodWorker(IDLE);
    case SyncAction(_, _) =>
  }

  // With any number of replicas, every stored row has a known type, lies under
  // its own key, and carries an absent or digits-only price and an absent or
  // non-empty denomination.
  lemma {:induction false} TableAlwaysGood(n: nat, states: seq<State>, steps: seq<Step>, i: nat)
    requires IsRun(n, states, steps) && i < |states|
    ensures GoodTable(states[i].txs) && GoodJobs(states[i].workers)
  {
    if i > 0 {
      TableAlwaysGood(n, states, steps, i - 1);
      assert StepAt(states, steps, i - 1);
      GoodStep(states[i - 1], steps[i - 1]);
    }
  }

  // Actions never leave the table and keep their creation time, so what is
  // stored when an enricher run starts is there for all its batches.
  lemma {:induction false} ActionsStay(n: nat, states: seq<State>, steps: seq<Step>, i: nat, j: nat, id: nat)
    requires IsRun(n, states, steps) && i <= j < |states| && id in states[i].actions
    ensures id in states[j].actions && states[j].actions[id].createdAt == states[i].actions[id].createdAt
  {
    if i < j {
      ActionsStay(n, states, steps, i, j - 1, id);
      assert StepAt(states, steps, j - 1);
    }
  }

  // ---- Any number of workers: who changes which rows ----

  // A worker only writes rows of the action it is processing.
  ghost predicate OwnsRows(w: Worker) {
    w.job.Some? ==>
      w.job.value.pending != [] && forall r :: r in w.job.value.pending ==> r.actionID == w.job.value.id
  }

  ghost predicate Owned(s: State) {
    forall w :: 0 <= w < |s.workers| ==> OwnsRows(s.workers[w])
  }

  lemma OwnedStep(s: State, step: Step)
    requires Owned(s) && Allowed(s, step)
    ensures Owned(Do(s, step))
  {
    match step
    case Fetch(w, _, batch) => assert OwnsRows(Worker(batch, None));
    case Begin(w, answer) =>
      var q := s.workers[w].queue;
      forall r | r in RowsFor(q[0], answer) ensures r.actionID == q[0].id {
      }
      assert OwnsRows(Do(s, step).workers[w]);
    case Write(w, _) =>
      assert OwnsRows(s.workers[w]);
      assert OwnsRows(Do(s, step).workers[w]);
    case Restart(w) => assert OwnsRows(IDLE);
    case SyncAction(_, _) =>
  }

  lemma {:induction false} OwnedAlways(n: nat, states: seq<State>, steps: seq<Step>, i: nat)
    requires IsRun(n, states, steps) && i < |states|
    ensures Owned(states[i])
  {
    if i > 0 {
      OwnedAlways(n, states, steps, i - 1);
      assert StepAt(states, steps, i - 1);
      OwnedStep(states[i - 1], steps[i - 1]);
    }
  }

  // Some worker is processing the action.
  ghost predicate InFlight(s: State, id: nat) {
    exists w :: 0 <= w < |s.workers| && s.workers[w].job.Some? && s.workers[w].job.value.id == id
  }

  predicate Stored(t: TxTable, tx: ActionTx) {
    KeyOf(tx) in t && t[KeyOf(tx)] == tx
  }

  // The step lands a row of the action that the table does not hold yet.
  ghost predicate LandsNews(s: State, step: Step, id: nat) {
    && step.Write? && CanAct(s, step) && step.lands
    && var tx := s.workers[step.w].job.value.pending[0];
    && tx.actionID == id && !Stored(s.txs, tx)
  }

  // With any number of workers, the rows of an action change in exactly those
  // steps, and only through a worker that is processing the action.
  lemma ChangesOnlyInFlight(s: State, step: Step, id: nat)
    requires Owned(s) && Allowed(s, step)
    ensures !SameRows(s.txs, Do(s, step).txs, id) <==> LandsNews(s, step, id)
    ensures LandsNews(s, step, id) ==> InFlight(s, id)
  {
    if step.Write? {
      var worker := s.workers[step.w];
      var tx := worker.job.value.pending[0];
      assert OwnsRows(worker);
      assert tx in worker.job.value.pending;
      assert tx.actionID == worker.job.value.id;
      if LandsNews(s, step, id) {
        assert KeyOf(tx) == TxKey(id, tx.txType);
        assert TxKey(id, tx.txType) in Do(s, step).txs;
      }
    }
  }

  // ---- One worker ----

  ghost predicate JobInvariant(txs: TxTable, queue: seq<EnrichAction>, job: Job) {
    && (forall i :: 0 <= i < |job.pending| ==> job.pending[i].actionID == job.id)
    && (forall i :: 0 <= i < |queue| ==> job.id < queue[i].id)
    && (forall i :: 0 <= i < |job.pending| && IsPlaceholder(job.pending[i]) ==> !Registered(txs, job.id))
    && (|job.pending| > 1 ==> forall i :: 0 <= i < |job.pending| ==> !IsPlaceholder(job.pending[i]))
  }

  // Nothing still queued has been registered since the batch was fetched.
  ghost predicate WorkerInvariant(txs: TxTable, w: Worker) {
    && AscendingIds(w.queue)
    && (forall i :: 0 <= i < |w.queue| ==> !Registered(txs, w.queue[i].id))
    && (w.job.Some? ==> JobInvariant(txs, w.queue, w.job.value))
  }

  ghost predicate Alone(s: State) {
    |s.workers| <= 1 && forall w :: 0 <= w < |s.workers| ==> WorkerInvariant(s.txs, s.workers[w])
  }

  lemma AloneFetch(s: State, step: Step)
    requires Alone(s) && Allowed(s, step) && step.Fetch?
    ensures Alone(Do(s, step))
  {
    forall i | 0 <= i < |step.batch| ensures !Registered(s.txs, step.batch[i].id) {
      assert step.batch[i] in step.batch;
    }
  }

  lemma AloneBegin(s: State, step: Step)
    requires Alone(s) && Allowed(s, step) && step.Begin?
    ensures Alone(Do(s, step))
  {
    var q := s.workers[step.w].queue;
    var pending := RowsFor(q[0], step.answer);
    if pending != [] {
      forall i | 0 <= i < |pending| ensures pending[i].actionID == q[0].id {
        assert pending[i] in pending;
      }
      if step.answer.value != [] {
        forall i | 0 <= i < |pending| ensures !IsPlaceholder(pending[i]) {
          assert pending[i] in step.answer.value;
        }
      }
      assert JobInvariant(s.txs, q[1..], Job(q[0].id, pending));
    }
  }

  lemma AloneWrite(s: State, step: Step)
    requires Alone(s) && Allowed(s, step) && step.Write?
    ensures Alone(Do(s, step))
  {
    var worker := s.workers[step.w];
    var job := worker.job.value;
    var t := Do(s, step);
    assert job.pending[0].actionID == job.id;
    forall i | 0 <= i < |worker.queue| ensures !Registered(t.txs, worker.queue[i].id) {
    }
    if |job.pending| > 1 {
      assert JobInvariant(t.txs, worker.queue, Job(job.id, job.pending[1..]));
    }
  }

  lemma AloneStep(s: State, step: Step)
    requires Alone(s) && Allowed(s, step)
    ensures Alone(Do(s, step))
  {
    match step
    case Fetch(_, _, _) => AloneFetch(s, step);
    case Begin(_, _) => AloneBegin(s, step);
    case Write(_, _) => AloneWrite(s, step);
    case Restart(_) =>
    case SyncAction(_, _) =>
  }

  lemma {:induction false} AloneAlways(n: nat, states: seq<State>, steps: seq<Step>, i: nat)
    requires IsRun(n, states, steps) && i < |states| && n <= 1
    ensures Alone(states[i])
  {
    if i > 0 {
      AloneAlways(n, states, steps, i - 1);
      assert StepAt(states, steps, i - 1);
      AloneStep(states[i - 1], steps[i - 1]);
    }
  }

  // The action has been registered and its processing is over.
  ghost predicate Settled(s: State, id: nat) {
    Registered(s.txs, id) && !InFlight(s, id)
  }

  lemma SettledStep(s: State, step: Step, id: nat)
    requires Alone(s) && Allowed(s, step) && Settled(s, id)
    ensures Settled(Do(s, step), id) && SameRows(s.txs, Do(s, step).txs, id)
  {
    match step
    case Fetch(w, _, _) =>
    case Begin(w, _) => assert s.workers[w].queue[0].id != id;
    case Write(w, _) =>
      assert s.workers[w].job.value.id != id;
      assert s.workers[w].job.value.pending[0].actionID != id;
    case Restart(w) =>
    case SyncAction(_, _) =>
  }

  lemma SameRowsTransitive(a: TxTable, b: TxTable, c: TxTable, id: nat)
    requires SameRows(a, b, id) && SameRows(b, c, id)
    ensures SameRows(a, c, id)
  {
  }

  // With one enricher, an action that has a register row and is no longer being
  // processed keeps all its transaction rows forever: it is never revisited,
  // so a finalize that happens later is not picked up.
  lemma {:induction false} SettledForever(n: nat, states: seq<State>, steps: seq<Step>, i: nat, j: nat, id: nat)
    requires IsRun(n, states, steps) && n <= 1
    requires i <= j < |states| && Settled(states[i], id)
    ensures Settled(states[j], id) && SameRows(states[i].txs, states[j].txs, id)
  {
    if i < j {
      SettledForever(n, states, steps, i, j - 1, id);
      AloneAlways(n, states, steps, j - 1);
      assert StepAt(states, steps, j - 1);
      SettledStep(states[j - 1], steps[j - 1], id);
      SameRowsTransitive(states[i].txs, states[j - 1].txs, states[j].txs, id);
    }
  }

  // ---- Placeholders and real register rows ----

  // This step replaces a real register row by a placeholder.
  ghost predicate Clobbers(s: State, step: Step) {
    && step.Write? && CanAct(s, step) && step.lands
    && var tx := s.workers[step.w].job.value.pending[0];
    && IsPlaceholder(tx) && KeyOf(tx) in s.txs && !IsPlaceholder(s.txs[KeyOf(tx)])
  }

  ghost predicate NeverClobbers(states: seq<State>, steps: seq<Step>)
    requires |states| == |steps| + 1
  {
    forall i :: 0 <= i < |steps| ==> !Clobbers(states[i], steps[i])
  }

  lemma OneEnricherNeverClobbers(n: nat, states: seq<State>, steps: seq<Step>, i: nat)
    requires IsRun(n, states, steps) && i < |steps| && n <= 1
    ensures !Clobbers(states[i], steps[i])
  {
    AloneAlways(n, states, steps, i);
    PlaceholderJobs(n, states, steps, i);
    assert StepAt(states, steps, i);
  }

  // A pending placeholder is a register row.
  ghost predicate PlaceholdersRegister(ws: seq<Worker>) {
    forall w, i :: 0 <= w < |ws| && ws[w].job.Some? && 0 <= i < |ws[w].job.value.pending| ==>
      IsPlaceholder(ws[w].job.value.pending[i]) ==> ws[w].job.value.pending[i].txType == "register"
  }

  lemma PlaceholderJobsStep(s: State, step: Step)
    requires PlaceholdersRegister(s.workers) && Allowed(s, step)
    ensures PlaceholdersRegister(Do(s, step).workers)
  {
  }

  lemma {:induction false} PlaceholderJobs(n: nat, states: seq<State>, steps: seq<Step>, i: nat)
    requires IsRun(n, states, steps) && i < |states|
    ensures PlaceholdersRegister(states[i].workers)
  {
    if i > 0 {
      PlaceholderJobs(n, states, steps, i - 1);
      assert StepAt(states, steps, i - 1);
      PlaceholderJobsStep(states[i - 1], steps[i - 1]);
    }
  }

  // ---- Concrete runs ----

  const SAMPLE_ACTION := Action("creator", "type", "state", 1, None, None, 0)

  function RealRow(hash: string): ActionTx {
    ActionTx(1, "register", hash, 7, 0, None, None, None, None, None, None, None, None)
  }

  const SAMPLE_VIEW := View(1, SAMPLE_ACTION)

  lemma SampleBatch()
    ensures IsBatch(map[1 := SAMPLE_ACTION], map[], 0, [SAMPLE_VIEW])
  {
    forall id | id in Unenriched(map[1 := SAMPLE_ACTION], map[], 0) ensures Visits([SAMPLE_VIEW], id) {
      assert [SAMPLE_VIEW][0].id == id;
    }
  }

  lemma SampleAnswer(hash: string)
    requires hash != PLACEHOLDER_HASH
    ensures ChainAnswer(SAMPLE_VIEW, Some([RealRow(hash)]))
    ensures ChainAnswer(SAMPLE_VIEW, Some([]))
  {
  }

  function Single(txs: TxTable, w: Worker): State {
    State(map[1 := SAMPLE_ACTION], txs, [w])
  }

  const QUEUED := Worker([SAMPLE_VIEW], None)

  lemma SingleFetch()
    ensures Allowed(Single(map[], IDLE), Fetch(0, 0, [SAMPLE_VIEW]))
    ensures Do(Single(map[], IDLE), Fetch(0, 0, [SAMPLE_VIEW])) == Single(map[], QUEUED)
  {
    SampleBatch();
  }

  lemma SingleBegin(rows: seq<ActionTx>)
    requires rows != [] && ChainAnswer(SAMPLE_VIEW, Some(rows))
    ensures Allowed(Single(map[], QUEUED), Begin(0, Some(rows)))
    ensures Do(Single(map[], QUEUED), Begin(0, Some(rows))) == Single(map[], Worker([], Some(Job(1, rows))))
  {
    assert [SAMPLE_VIEW][1..] == [];
  }

  lemma SingleWrite(txs: TxTable, rows: seq<ActionTx>)
    requires rows != []
    ensures Allowed(Single(txs, Worker([], Some(Job(1, rows)))), Write(0, true))
    ensures Do(Single(txs, Worker([], Some(Job(1, rows)))), Write(0, true))
         == Single(Upserted(txs, rows[0]), Worker([], JobFor(1, rows[1..])))
  {
  }

  // Whatever row the chain reports for an action, some run of one enricher
  // stores exactly that row.
  lemma AnyRowIsStored(tx: ActionTx) returns (states: seq<State>, steps: seq<Step>)
    requires ChainAnswer(SAMPLE_VIEW, Some([tx]))
    ensures IsRun(1, states, steps) && states[|steps|].txs == map[KeyOf(tx) := tx]
  {
    SingleFetch();
    SingleBegin([tx]);
    SingleWrite(map[], [tx]);
    states := [Single(map[], IDLE), Single(map[], QUEUED), Single(map[], Worker([], Some(Job(1, [tx])))),
               Single(Upserted(map[], tx), Worker([], JobFor(1, [tx][1..])))];
    steps := [Fetch(0, 0, [SAMPLE_VIEW]), Begin(0, Some([tx])), Write(0, true)];
    forall i | 0 <= i < 3 ensures StepAt(states, steps, i) {
    }
  }

  // A run of one enricher that stores two reported rows one after the other.
  lemma TwoRowsStored(first: ActionTx, second: ActionTx) returns (states: seq<State>, steps: seq<Step>)
    requires ChainAnswer(SAMPLE_VIEW, Some([first, second]))
    ensures IsRun(1, states, steps) && |steps| == 4
    ensures states[3] == Single(map[KeyOf(first) := first], Worker([], Some(Job(1, [second]))))
    ensures states[4].txs == Upserted(map[KeyOf(first) := first], second)
  {
    var rows := [first, second];
    assert rows[1..] == [second];
    SingleFetch();
    SingleBegin(rows);
    SingleWrite(map[], rows);
    SingleWrite(Upserted(map[], first), [second]);
    states := [Single(map[], IDLE), Single(map[], QUEUED), Single(map[], Worker([], Some(Job(1, rows)))),
               Single(Upserted(map[], first), Worker([], Some(Job(1, [second])))),
               Single(Upserted(Upserted(map[], first), second), Worker([], JobFor(1, [second][1..])))];
    steps := [Fetch(0, 0, [SAMPLE_VIEW]), Begin(0, Some(rows)), Write(0, true), Write(0, true)];
    forall i | 0 <= i < 4 ensures StepAt(states, steps, i) {
    }
  }

  // Once an action has a register row, its rows may still change while it is
  // being processed.  Ordinarily because its finalize row is written next.
  lemma FinalizeFollowsRegister() returns (states: seq<State>, steps: seq<Step>)
    ensures IsRun(1, states, steps) && |steps| == 4
    ensures Registered(states[3].txs, 1) && TxKey(1, "finalize") !in states[3].txs
    ensures TxKey(1, "finalize") in states[4].txs && !SameRows(states[3].txs, states[4].txs, 1)
  {
    var register := RealRow("A");
    var finalize := register.(txType := "finalize", txHash := "B");
    states, steps := TwoRowsStored(register, finalize);
    assert TxKey(1, "finalize") in states[4].txs;
  }

  // The register row itself may change too: the chain may report several
  // register transactions, and the last one wins.
  lemma RowsMoveInFlight() returns (states: seq<State>, steps: seq<Step>)
    ensures IsRun(1, states, steps)
    ensures exists i, j :: 0 <= i < j < |states| && Registered(states[i].txs, 1)
                        && !SameRows(states[i].txs, states[j].txs, 1)
  {
    states, steps := TwoRowsStored(RealRow("A"), RealRow("B"));
    var key := TxKey(1, "register");
    assert states[3].txs[key] != states[4].txs[key];
    assert Registered(states[3].txs, 1) && !SameRows(states[3].txs, states[4].txs, 1);
  }

  // n workers, the first two of them in the given states.
  function Stage(n: nat, txs: TxTable, a: Worker, b: Worker): State
    requires 2 <= n
  {
    State(map[1 := SAMPLE_ACTION], txs, [a, b] + seq(n - 2, _ => IDLE))
  }

  function Holding(tx: ActionTx): Worker {
    Worker([], Some(Job(1, [tx])))
  }

  lemma BothFetch(n: nat)
    requires 2 <= n
    ensures var step := Fetch(0, 0, [SAMPLE_VIEW]);
            && Allowed(Stage(n, map[], IDLE, IDLE), step)
            && Do(Stage(n, map[], IDLE, IDLE), step) == Stage(n, map[], QUEUED, IDLE)
    ensures var step := Fetch(1, 0, [SAMPLE_VIEW]);
            && Allowed(Stage(n, map[], QUEUED, IDLE), step)
            && Do(Stage(n, map[], QUEUED, IDLE), step) == Stage(n, map[], QUEUED, QUEUED)
  {
    SampleBatch();
  }

  lemma FirstBegins(n: nat)
    requires 2 <= n
    ensures var s, step := Stage(n, map[], QUEUED, QUEUED), Begin(0, Some([RealRow("A")]));
            Allowed(s, step) && Do(s, step) == Stage(n, map[], Holding(RealRow("A")), QUEUED)
  {
    SampleAnswer("A");
    assert [SAMPLE_VIEW][1..] == [];
  }

  lemma FirstWrites(n: nat, tx: ActionTx)
    requires 2 <= n
    ensures var s, step := Stage(n, map[], Holding(tx), QUEUED), Write(0, true);
            Allowed(s, step) && Do(s, step) == Stage(n, Upserted(map[], tx), IDLE, QUEUED)
  {
    assert [tx][1..] == [];
  }

  lemma SecondBegins(n: nat, txs: TxTable)
    requires 2 <= n
    ensures var s, step := Stage(n, txs, IDLE, QUEUED), Begin(1, Some([]));
            Allowed(s, step) && Do(s, step) == Stage(n, txs, IDLE, Holding(Placeholder(1, 0)))
  {
    SampleAnswer("A");
    assert [SAMPLE_VIEW][1..] == [];
  }

  lemma SecondClobbers(n: nat)
    requires 2 <= n
    ensures var s := Stage(n, Upserted(map[], RealRow("A")), IDLE, Holding(Placeholder(1, 0)));
            Allowed(s, Write(1, true)) && Clobbers(s, Write(1, true))
  {
  }

  // One more step of a run whose last state is s.
  lemma RunOn(n: nat, states: seq<State>, steps: seq<Step>, s: State, step: Step)
    returns (states': seq<State>, steps': seq<Step>)
    requires IsRun(n, states, steps) && states[|steps|] == s && Allowed(s, step)
    ensures IsRun(n, states', steps') && states'[|steps'|] == Do(s, step)
    ensures states' == states + [Do(s, step)] && steps' == steps + [step]
  {
    states', steps' := states + [Do(s, step)], steps + [step];
    forall i | 0 <= i < |steps'| ensures StepAt(states', steps', i) {
      if i < |steps| {
        assert StepAt(states, steps, i);
      }
    }
  }

  // Two replicas: both fetch the action, one stores its register row, the
  // other's searches fail and it writes a placeholder over it.
  lemma TwoEnrichersClobber(n: nat) returns (states: seq<State>, steps: seq<Step>)
    requires 2 <= n
    ensures IsRun(n, states, steps) && !NeverClobbers(states, steps)
  {
    var found := RealRow("A");
    var stored := Upserted(map[], found);
    var last := Stage(n, stored, IDLE, Holding(Placeholder(1, 0)));
    BothFetch(n);
    FirstBegins(n);
    FirstWrites(n, found);
    SecondBegins(n, stored);
    SecondClobbers(n);
    states, steps := [Stage(n, map[], IDLE, IDLE)], [];
    states, steps := RunOn(n, states, steps, Stage(n, map[], IDLE, IDLE), Fetch(0, 0, [SAMPLE_VIEW]));
    states, steps := RunOn(n, states, steps, Stage(n, map[], QUEUED, IDLE), Fetch(1, 0, [SAMPLE_VIEW]));
    states, steps := RunOn(n, states, steps, Stage(n, map[], QUEUED, QUEUED), Begin(0, Some([found])));
    states, steps := RunOn(n, states, steps, Stage(n, map[], Holding(found), QUEUED), Write(0, true));
    states, steps := RunOn(n, states, steps, Stage(n, stored, IDLE, QUEUED), Begin(1, Some([])));
    states, steps := RunOn(n, states, steps, last, Write(1, true));
    assert Clobbers(states[|steps| - 1], steps[|steps| - 1]);
  }

  // A placeholder never replaces a real register row exactly when at most one
  // enricher works on the database.
  lemma NeverClobbersIff(n: nat)
    ensures (forall states, steps :: IsRun(n, states, steps) ==> NeverClobbers(states, steps)) <==> n <= 1
  {
    if n <= 1 {
      forall states, steps | IsRun(n, states, steps) ensures NeverClobbers(states, steps) {
        forall i | 0 <= i < |steps| ensures !Clobbers(states[i], steps[i]) {
          OneEnricherNeverClobbers(n, states, steps, i);
        }
      }
    } else {
      var states, steps := TwoEnrichersClobber(n);
      assert IsRun(n, states, steps) && !NeverClobbers(states, steps);
    }
  }
}
