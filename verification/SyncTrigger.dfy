// The manual sync+probe trigger (internal/background/scheduler.go,
// TriggerSyncAndProbe): any number of callers, one mutex, one flag.
module SyncTrigger {
  import opened Sql

  // Where a thread stands.  The first group is TriggerSyncAndProbe, the second
  // the goroutine it starts.
  datatype Pc =
    | AtLock                    // about to call syncMu.Lock()
    | Locked                    // holds the mutex, has not read the flag
    | Refusing                  // holds the mutex, saw the flag set
    | Claiming                  // holds the mutex, has set the flag
    | Spawning                  // released the mutex, about to start the run
    | Returned(started: bool)
    | Syncing
    | Probing
    | AtResetLock               // the deferred reset, about to lock
    | ResetLocked
    | ResetDone                 // holds the mutex, has cleared the flag
    | Finished

  datatype State = State(
    mutex: Option<nat>, syncRunning: bool, threads: map<nat, Pc>, started: nat, completed: nat)

  const INITIAL := State(None, false, map[], 0, 0)

  datatype Step =
    | Arrive(t: nat)            // a caller enters TriggerSyncAndProbe
    | Spawn(t: nat, child: nat) // the go statement and the return
    | Advance(t: nat)           // any other step of a thread

  predicate CanDo(s: State, step: Step) {
    match step
    case Arrive(t) => t !in s.threads
    case Spawn(t, child) => t in s.threads && s.threads[t] == Spawning && child !in s.threads
    case Advance(t) =>
      t in s.threads
      && (s.threads[t].AtLock? || s.threads[t].AtResetLock? ==> s.mutex.None?)
      && !s.threads[t].Spawning? && !s.threads[t].Returned? && !s.threads[t].Finished?
  }

  function Moved(s: State, t: nat, pc: Pc): State {
    s.(threads := s.threads[t := pc])
  }

  function Do(s: State, step: Step): State
    requires CanDo(s, step)
  {
    match step
    case Arrive(t) => Moved(s, t, AtLock)
    case Spawn(t, child) => Moved(Moved(s, t, Returned(true)), child, Syncing)
    case Advance(t) =>
      match s.threads[t]
      case AtLock => Moved(s, t, Locked).(mutex := Some(t))
      case Locked =>
        if s.syncRunning then Moved(s, t, Refusing)
        else Moved(s, t, Claiming).(syncRunning := true, started := s.started + 1)
      case Refusing => Moved(s, t, Returned(false)).(mutex := None)
      case Claiming => Moved(s, t, Spawning).(mutex := None)
      case Syncing => Moved(s, t, Probing)
      case Probing => Moved(s, t, AtResetLock)
      case AtResetLock => Moved(s, t, ResetLocked).(mutex := Some(t))
      case ResetLocked => Moved(s, t, ResetDone).(syncRunning := false, completed := s.completed + 1)
      case ResetDone => Moved(s, t, Finished).(mutex := None)
      case _ => s
  }

  ghost predicate StepAt(states: seq<State>, steps: seq<Step>, i: nat)
    requires i < |steps| && |states| == |steps| + 1
  {
    CanDo(states[i], steps[i]) && states[i + 1] == Do(states[i], steps[i])
  }

  ghost predicate IsRun(states: seq<State>, steps: seq<Step>) {
    && |states| == |steps| + 1 && states[0] == INITIAL
    && forall i :: 0 <= i < |steps| ==> StepAt(states, steps, i)
  }

  predicate Holds(pc: Pc) {
    pc.Locked? || pc.Refusing? || pc.Claiming? || pc.ResetLocked? || pc.ResetDone?
  }

  // The thread has started a run, or is the run, and the flag has not been
  // reset for it.
  predicate Owns(pc: Pc) {
    pc.Claiming? || pc.Spawning? || pc.Syncing? || pc.Probing? || pc.AtResetLock? || pc.ResetLocked?
  }

  predicate Active(pc: Pc) {
    pc.Syncing? || pc.Probing?
  }

  predicate IsOwner(s: State, t: nat) {
    t in s.threads && Owns(s.threads[t])
  }

  ghost predicate Invariant(s: State) {
    && (forall t :: t in s.threads && Holds(s.threads[t]) ==> s.mutex == Some(t))
    && (s.mutex.Some? ==> s.mutex.value in s.threads && Holds(s.threads[s.mutex.value]))
    && (forall t, u :: IsOwner(s, t) && IsOwner(s, u) ==> t == u)
    && (s.syncRunning <==> exists t :: IsOwner(s, t))
    && s.started == s.completed + (if s.syncRunning then 1 else 0)
  }

  // Which thread owns the run after a step.
  lemma OwnerAfter(s: State, step: Step, u: nat)
    requires CanDo(s, step)
    ensures IsOwner(Do(s, step), u) <==>
              match step
              case Arrive(t) => u != t && IsOwner(s, u)
              case Spawn(t, child) => u == child || (u != t && IsOwner(s, u))
              case Advance(t) =>
                if u != t then IsOwner(s, u)
                else if s.threads[t].Locked? then !s.syncRunning
                else IsOwner(s, t) && !s.threads[t].ResetLocked?
  {
  }

  lemma MutexStep(s: State, step: Step)
    requires Invariant(s) && CanDo(s, step)
    ensures var s' := Do(s, step);
            && (forall t :: t in s'.threads && Holds(s'.threads[t]) ==> s'.mutex == Some(t))
            && (s'.mutex.Some? ==> s'.mutex.value in s'.threads && Holds(s'.threads[s'.mutex.value]))
  {
  }

  lemma OwnerStep(s: State, step: Step)
    requires Invariant(s) && CanDo(s, step)
    ensures var s' := Do(s, step);
            && (forall t, u :: IsOwner(s', t) && IsOwner(s', u) ==> t == u)
            && (s'.syncRunning <==> exists t :: IsOwner(s', t))
            && s'.started == s'.completed + (if s'.syncRunning then 1 else 0)
  {
    var s' := Do(s, step);
    forall u ensures IsOwner(s', u) <==>
              match step
              case Arrive(t) => u != t && IsOwner(s, u)
              case Spawn(t, child) => u == child || (u != t && IsOwner(s, u))
              case Advance(t) =>
                if u != t then IsOwner(s, u)
                else if s.threads[t].Locked? then !s.syncRunning
                else IsOwner(s, t) && !s.threads[t].ResetLocked?
    {
      OwnerAfter(s, step, u);
    }
    match step
    case Arrive(t) =>
      if s.syncRunning {
        var o :| IsOwner(s, o);
        assert IsOwner(s', o);
      }
    case Spawn(t, child) => assert IsOwner(s, t) && IsOwner(s', child);
    case Advance(t) =>
      assert s.threads[t].ResetLocked? ==> IsOwner(s, t);
      if s.syncRunning {
        var o :| IsOwner(s, o);
        assert s.threads[t].ResetLocked? ==> o == t;
        assert !s.threads[t].ResetLocked? ==> IsOwner(s', o);
      } else {
        assert s.threads[t].Locked? ==> IsOwner(s', t);
      }
  }

  lemma {:induction false} InvariantAlways(states: seq<State>, steps: seq<Step>, i: nat)
    requires IsRun(states, steps) && i < |states|
    ensures Invariant(states[i])
  {
    if i > 0 {
      InvariantAlways(states, steps, i - 1);
      assert StepAt(states, steps, i - 1);
      MutexStep(states[i - 1], steps[i - 1]);
      OwnerStep(states[i - 1], steps[i - 1]);
    }
  }

  // In every state of every run: at most one sync+probe is active; the flag is
  // set exactly while some started run has not reset it; started runs exceed
  // completed ones by at most one.
  lemma AtMostOneRun(states: seq<State>, steps: seq<Step>, i: nat)
    requires IsRun(states, steps) && i < |states|
    ensures var s := states[i];
            && (forall t, u :: t in s.threads && u in s.threads && Active(s.threads[t]) && Active(s.threads[u]) ==>
                  t == u)
            && (s.syncRunning <==> exists t :: IsOwner(s, t))
            && s.completed <= s.started <= s.completed + 1
  {
    InvariantAlways(states, steps, i);
    forall t, u | t in states[i].threads && u in states[i].threads
                  && Active(states[i].threads[t]) && Active(states[i].threads[u])
      ensures t == u
    {
      assert IsOwner(states[i], t) && IsOwner(states[i], u);
    }
  }

  // A caller is refused only while another run is under way, and a caller that
  // reads the flag while no run is under way starts one.
  lemma RefusedOnlyWhileRunning(states: seq<State>, steps: seq<Step>, i: nat)
    requires IsRun(states, steps) && i < |steps|
    requires steps[i].Advance? && steps[i].t in states[i].threads && states[i].threads[steps[i].t] == Locked
    ensures steps[i].t in states[i + 1].threads
    ensures states[i + 1].threads[steps[i].t] == Refusing <==> exists o :: o != steps[i].t && IsOwner(states[i], o)
    ensures states[i + 1].threads[steps[i].t] == Claiming <==> forall o :: !IsOwner(states[i], o)
  {
    InvariantAlways(states, steps, i);
    assert StepAt(states, steps, i);
    assert !IsOwner(states[i], steps[i].t);
  }

  // ---- What a run has done ----

  predicate IsAt(s: State, t: nat, pc: Pc) {
    t in s.threads && s.threads[t] == pc
  }

  // The thread was there in a state before the i-th.
  ghost predicate WasAt(states: seq<State>, i: nat, t: nat, pc: Pc) {
    exists j :: 0 <= j < i && j < |states| && IsAt(states[j], t, pc)
  }

  // The thread synced first and probed later, before the i-th state.
  ghost predicate SyncedThenProbed(states: seq<State>, i: nat, t: nat) {
    exists j :: 0 <= j < i && j < |states| && IsAt(states[j], t, Probing) && WasAt(states, j, t, Syncing)
  }

  lemma WasAtLater(states: seq<State>, i: nat, k: nat, t: nat, pc: Pc)
    requires i <= k && WasAt(states, i, t, pc)
    ensures WasAt(states, k, t, pc)
  {
    var j :| 0 <= j < i && j < |states| && IsAt(states[j], t, pc);
    assert 0 <= j < k;
  }

  lemma ProbedLater(states: seq<State>, i: nat, k: nat, t: nat)
    requires i <= k && SyncedThenProbed(states, i, t)
    ensures SyncedThenProbed(states, k, t)
  {
    var j :| 0 <= j < i && j < |states| && IsAt(states[j], t, Probing) && WasAt(states, j, t, Syncing);
    assert 0 <= j < k;
  }

  // A run that has come to its end, or to resetting the flag, has synced and
  // then probed.
  lemma {:induction false} EndedRunHasProbed(states: seq<State>, steps: seq<Step>, i: nat, t: nat)
    requires IsRun(states, steps) && i < |states| && t in states[i].threads
    ensures states[i].threads[t] == Probing ==> WasAt(states, i, t, Syncing)
    ensures states[i].threads[t] in {AtResetLock, ResetLocked, ResetDone, Finished} ==> SyncedThenProbed(states, i, t)
  {
    if i > 0 {
      assert StepAt(states, steps, i - 1);
      var s := states[i - 1];
      if t in s.threads {
        EndedRunHasProbed(states, steps, i - 1, t);
        var pc := s.threads[t];
        if pc == Syncing {
          assert IsAt(states[i - 1], t, Syncing);
          assert WasAt(states, i, t, Syncing);
        } else if pc == Probing {
          assert IsAt(states[i - 1], t, Probing) && WasAt(states, i - 1, t, Syncing);
          assert SyncedThenProbed(states, i, t);
          WasAtLater(states, i - 1, i, t, Syncing);
        } else if pc in {AtResetLock, ResetLocked, ResetDone, Finished} {
          ProbedLater(states, i - 1, i, t);
        }
      }
    }
  }

  // A caller that has set the flag for a run, and a run that has cleared it.
  predicate HasClaimed(pc: Pc) {
    pc == Claiming || pc == Spawning || pc == Returned(true)
  }

  predicate HasEnded(pc: Pc) {
    pc == ResetDone || pc == Finished
  }

  ghost function Starters(s: State): set<nat> {
    set t | t in s.threads && HasClaimed(s.threads[t])
  }

  ghost function Enders(s: State): set<nat> {
    set t | t in s.threads && HasEnded(s.threads[t])
  }

  // This step claims the flag, or clears it.
  predicate Claims(s: State, step: Step) {
    step.Advance? && IsAt(s, step.t, Locked) && !s.syncRunning
  }

  predicate Ends(s: State, step: Step) {
    step.Advance? && IsAt(s, step.t, ResetLocked)
  }

  lemma StarterAfter(s: State, step: Step, u: nat)
    requires CanDo(s, step)
    ensures u in Starters(Do(s, step)) <==> u in Starters(s) || (Claims(s, step) && u == step.t)
    ensures Claims(s, step) ==> step.t !in Starters(s)
  {
  }

  lemma EnderAfter(s: State, step: Step, u: nat)
    requires CanDo(s, step)
    ensures u in Enders(Do(s, step)) <==> u in Enders(s) || (Ends(s, step) && u == step.t)
    ensures Ends(s, step) ==> step.t !in Enders(s)
  {
  }

  lemma SizeAfter(a: set<nat>, b: set<nat>, grows: bool, x: nat)
    requires forall u :: u in b <==> u in a || (grows && u == x)
    requires grows ==> x !in a
    ensures |b| == |a| + if grows then 1 else 0
  {
    assert b == if grows then a + {x} else a;
  }

  lemma StartersSize(s: State, step: Step)
    requires CanDo(s, step)
    ensures |Starters(Do(s, step))| == |Starters(s)| + if Claims(s, step) then 1 else 0
  {
    forall u ensures u in Starters(Do(s, step)) <==> u in Starters(s) || (Claims(s, step) && u == step.t) {
      StarterAfter(s, step, u);
    }
    StarterAfter(s, step, 0);
    SizeAfter(Starters(s), Starters(Do(s, step)), Claims(s, step), if step.Advance? then step.t else 0);
  }

  lemma EndersSize(s: State, step: Step)
    requires CanDo(s, step)
    ensures |Enders(Do(s, step))| == |Enders(s)| + if Ends(s, step) then 1 else 0
  {
    forall u ensures u in Enders(Do(s, step)) <==> u in Enders(s) || (Ends(s, step) && u == step.t) {
      EnderAfter(s, step, u);
    }
    EnderAfter(s, step, 0);
    SizeAfter(Enders(s), Enders(Do(s, step)), Ends(s, step), if step.Advance? then step.t else 0);
  }

  lemma CountersAfter(s: State, step: Step)
    requires CanDo(s, step)
    ensures Do(s, step).started == s.started + if Claims(s, step) then 1 else 0
    ensures Do(s, step).completed == s.completed + if Ends(s, step) then 1 else 0
  {
  }

  // The two counters count exactly these, so at most one claimed run has not
  // ended.
  lemma {:induction false} CountersCount(states: seq<State>, steps: seq<Step>, i: nat)
    requires IsRun(states, steps) && i < |states|
    ensures states[i].started == |Starters(states[i])| && states[i].completed == |Enders(states[i])|
    ensures |Enders(states[i])| <= |Starters(states[i])| <= |Enders(states[i])| + 1
  {
    InvariantAlways(states, steps, i);
    if i > 0 {
      CountersCount(states, steps, i - 1);
      assert StepAt(states, steps, i - 1);
      StartersSize(states[i - 1], steps[i - 1]);
      EndersSize(states[i - 1], steps[i - 1]);
      CountersAfter(states[i - 1], steps[i - 1]);
    }
  }
}
