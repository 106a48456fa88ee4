/** Scheduling of background work: whatever needs it has a background call on its way, and no
    thread waits without one. Each step runs from one release of the mutex to the next. */
module Scheduling {
  import opened InternalKeys

  // What scheduling sees of the current version.
  datatype Shape = Shape(levelZero: nat, score: real, seekPending: bool)

  // VersionSet.Finalize leaves a score no lower than level 0's own.
  ghost predicate Finalized(v: Shape) {
    v.score >= v.levelZero as real / L0_COMPACTION_TRIGGER as real
  }

  predicate NeedsCompaction(v: Shape) { v.score >= 1.0 || v.seekPending }

  // The background thread: none running, or away from the mutex in one of its jobs.
  // A compaction remembers whose manual request it serves, if any.
  datatype Job = NoJob | Flushing | Moving | Compacting(request: Option<nat>)

  // `waiters` sleep on the signal for finished background work.
  datatype State = State(
    version: Shape, imm: bool, manual: Option<nat>, scheduled: bool, job: Job,
    error: bool, shuttingDown: bool, waiters: set<nat>)

  predicate ServesRequest(job: Job) { job.Compacting? && job.request.Some? }

  ghost predicate HasWork(s: State) {
    s.imm || s.manual.Some? || NeedsCompaction(s.version)
  }

  function MaybeSchedule(s: State): State {
    if s.scheduled || s.shuttingDown || s.error then s
    else if !s.imm && s.manual.None? && !NeedsCompaction(s.version) then s
    else s.(scheduled := true)
  }

  // RecordBackgroundError
  function Failed(s: State): State {
    if s.error then s else s.(error := true, waiters := {})
  }

  // The tail of BackgroundCall
  function EndCall(s: State): State {
    MaybeSchedule(s.(scheduled := false, job := NoJob)).(waiters := {})
  }

  // ---- MakeRoomForWrite: what one turn of its loop does

  datatype Turn = GiveUp | Delay | Proceed | WaitForFlush | WaitForLevelZero | SwitchMemtable

  function MakeRoomTurn(s: State, force: bool, allowDelay: bool, room: bool): Turn {
    if s.error then GiveUp
    else if allowDelay && s.version.levelZero >= L0_SLOWDOWN_WRITES_TRIGGER then Delay
    else if !force && room then Proceed
    else if s.imm then WaitForFlush
    else if s.version.levelZero >= L0_STOP_WRITES_TRIGGER then WaitForLevelZero
    else SwitchMemtable
  }

  // ---- The steps

  datatype Step =
    | MakeRoom(id: nat, force: bool, allowDelay: bool, room: bool)
    // TEST_CompactMemTable waiting for the flush
    | AwaitFlush(id: nat)
    // TEST_CompactRange: take the manual slot and wait, or wait for it, or leave
    | StartManual(id: nat)
    | AwaitManual(id: nat)
    | LeaveManual(id: nat)
    // A read charged a file enough seeks
    | SeekCharged(current: bool)
    // A failed log sync
    | SyncError
    | ShutDown
    // The background thread: a call begins and ends at once, or leaves with a job
    | BeginAndEnd
    | Begin(job: Job)
    // CompactMemTable from within a compaction
    | FlushWithin(ok: bool, version: Shape)
    | End(ok: bool, version: Shape)

  ghost predicate Idle(s: State) { s.scheduled && s.job.NoJob? }

  ghost predicate Enabled(s: State, step: Step) {
    match step
    case MakeRoom(_, _, _, _) => true
    case AwaitFlush(_) => s.imm && !s.error
    case StartManual(_) => s.manual.None? && !s.error && !s.shuttingDown
    case AwaitManual(_) => s.manual.Some? && !s.error && !s.shuttingDown
    case LeaveManual(id) => s.manual == Some(id) && (s.error || s.shuttingDown)
    case SeekCharged(_) => true
    case SyncError => true
    case ShutDown => true
    case BeginAndEnd =>
      Idle(s) && (s.shuttingDown || s.error || (!s.imm && (s.manual.Some? || !NeedsCompaction(s.version))))
    case Begin(job) =>
      && Idle(s) && !s.shuttingDown && !s.error
      && (match job
          case NoJob => false
          case Flushing => s.imm
          case Moving => !s.imm && s.manual.None? && NeedsCompaction(s.version)
          case Compacting(request) =>
            !s.imm && request == s.manual && (request.Some? || NeedsCompaction(s.version)))
    case FlushWithin(_, v) => s.job.Compacting? && s.imm && Finalized(v)
    case End(_, v) => !s.job.NoJob? && Finalized(v)
  }

  function Next(s: State, step: Step): State {
    match step
    case MakeRoom(id, force, allowDelay, room) =>
      (match MakeRoomTurn(s, force, allowDelay, room)
       case WaitForFlush => s.(waiters := s.waiters + {id})
       case WaitForLevelZero => s.(waiters := s.waiters + {id})
       case SwitchMemtable => MaybeSchedule(s.(imm := true))
       case _ => s)
    case AwaitFlush(id) => s.(waiters := s.waiters + {id})
    case StartManual(id) =>
      var t := MaybeSchedule(s.(manual := Some(id)));
      t.(waiters := t.waiters + {id})
    case AwaitManual(id) => s.(waiters := s.waiters + {id})
    case LeaveManual(id) => s.(manual := None)
    case SeekCharged(current) =>
      MaybeSchedule(if current then s.(version := s.version.(seekPending := true)) else s)
    case SyncError => Failed(s)
    case ShutDown => s.(shuttingDown := true)
    case BeginAndEnd =>
      // With a manual compaction that finds nothing, the slot is freed.
      EndCall(if s.shuttingDown || s.error then s else s.(manual := None))
    case Begin(job) => s.(job := job)
    case FlushWithin(ok, v) =>
      if ok then s.(version := v, imm := false, waiters := {}) else Failed(s).(waiters := {})
    case End(ok, v) =>
      var t := if !ok then Failed(s)
               else if s.job.Flushing? then s.(version := v, imm := false)
               else s.(version := v);
      EndCall(if ServesRequest(s.job) then t.(manual := None) else t)
  }

  // ---- What every reachable state satisfies

  ghost predicate Inv(s: State) {
    && Finalized(s.version)
    && (HasWork(s) ==> s.scheduled || s.error || s.shuttingDown)
    && (s.waiters != {} ==> (s.scheduled || s.shuttingDown) && !s.error)
    && (!s.job.NoJob? ==> s.scheduled)
    && (s.job.Flushing? ==> s.imm)
    && (ServesRequest(s.job) ==> s.manual == s.job.request || (s.manual.None? && (s.error || s.shuttingDown)))
  }

  // ---- The methods of the database that change this state

  class Scheduler {
    var version: Shape
    var imm: bool
    var manual: Option<nat>
    var scheduled: bool
    var job: Job
    var error: bool
    var shuttingDown: bool
    var waiters: set<nat>

    ghost function Now(): State
      reads this
    {
      State(version, imm, manual, scheduled, job, error, shuttingDown, waiters)
    }

    constructor (version: Shape)
      ensures Now() == State(version, false, None, false, NoJob, false, false, {})
    {
      this.version := version;
      imm, manual, scheduled, job, error, shuttingDown, waiters := false, None, false, NoJob, false, false, {};
    }

    // Afterwards work has a call on its way unless an error or a shutdown stops it, and no
    // call was scheduled without work.
    method MaybeScheduleCompaction()
      modifies `scheduled
      ensures HasWork(Now()) ==> scheduled || error || shuttingDown
      ensures old(scheduled) ==> scheduled
      ensures scheduled && !old(scheduled) ==> HasWork(Now()) && !error && !shuttingDown
      ensures scheduled <==>
                old(scheduled)
                || (!shuttingDown && !error && (imm || manual.Some? || version.seekPending || version.score >= 1.0))
      ensures Now() == MaybeSchedule(old(Now()))
    {
      if scheduled {
        // Already scheduled
      } else if shuttingDown {
        // No more background work
      } else if error {
        // No more changes
      } else if !imm && manual.None? && !NeedsCompaction(version) {
        // No work to be done
      } else {
        scheduled := true;
      }
    }

    method RecordBackgroundError()
      modifies `error, `waiters
      ensures error && waiters == if old(error) then old(waiters) else {}
      ensures Now() == Failed(old(Now()))
    {
      if !error {
        error, waiters := true, {};
      }
    }

    // The tail of BackgroundCall: nobody sleeps, no job runs, and whatever the call left
    // behind, the invariant holds again once the version is finalized.
    method FinishBackgroundCall()
      modifies `scheduled, `job, `waiters
      ensures waiters == {} && job == NoJob
      ensures scheduled <==> HasWork(Now()) && !error && !shuttingDown
      ensures Finalized(version) ==> Inv(Now())
      ensures Now() == EndCall(old(Now()))
    {
      scheduled, job := false, NoJob;
      MaybeScheduleCompaction();
      waiters := {};
    }

    // One turn of MakeRoomForWrite's loop. The writer goes on with room in the memtable or
    // behind a fresh one, is refused after an error, or is delayed at most when it allows it;
    // it falls asleep only behind a full memtable or a full level 0, with a call on its way.
    method MakeRoom(id: nat, force: bool, allowDelay: bool, room: bool) returns (turn: Turn)
      modifies `imm, `scheduled, `waiters
      ensures old(Inv(Now())) ==> Inv(Now())
      // Which turn it is, from the state found
      ensures turn == GiveUp <==> old(error)
      ensures turn == Delay <==> !old(error) && allowDelay && old(version.levelZero) >= 8
      ensures turn == Proceed <==>
                !old(error) && !(allowDelay && old(version.levelZero) >= 8) && !force && room
      ensures turn == WaitForFlush <==>
                !old(error) && !(allowDelay && old(version.levelZero) >= 8) && (force || !room) && old(imm)
      ensures turn == WaitForLevelZero <==>
                !old(error) && !(allowDelay && old(version.levelZero) >= 8) && (force || !room) && !old(imm)
                && old(version.levelZero) >= 12
      ensures turn == SwitchMemtable <==>
                !old(error) && !(allowDelay && old(version.levelZero) >= 8) && (force || !room) && !old(imm)
                && old(version.levelZero) < 12
      // What it changes
      ensures imm <==> old(imm) || turn == SwitchMemtable
      ensures scheduled <==> old(scheduled) || (turn == SwitchMemtable && !shuttingDown)
      ensures waiters == old(waiters) + if turn == WaitForFlush || turn == WaitForLevelZero then {id} else {}
      ensures old(Inv(Now())) && (turn == WaitForFlush || turn == WaitForLevelZero) ==> scheduled || shuttingDown
      ensures Now() == Next(old(Now()), Step.MakeRoom(id, force, allowDelay, room))
    {
      if version.levelZero >= L0_STOP_WRITES_TRIGGER && Finalized(version) {
        StopTriggerNeedsCompaction(version);
      }
      if error {
        turn := GiveUp;
      } else if allowDelay && version.levelZero >= L0_SLOWDOWN_WRITES_TRIGGER {
        turn := Delay;
      } else if !force && room {
        turn := Proceed;
      } else if imm {
        waiters := waiters + {id};
        turn := WaitForFlush;
      } else if version.levelZero >= L0_STOP_WRITES_TRIGGER {
        waiters := waiters + {id};
        turn := WaitForLevelZero;
      } else {
        imm := true;
        MaybeScheduleCompaction();
        turn := SwitchMemtable;
      }
    }
  }

  // Opening the database ends in MaybeScheduleCompaction.
  ghost predicate Opened(s: State) {
    && Finalized(s.version) && s.job.NoJob? && s.waiters == {} && s.manual.None? && !s.imm
    && !s.error && !s.shuttingDown && s.scheduled == NeedsCompaction(s.version)
  }

  lemma StopTriggerNeedsCompaction(v: Shape)
    requires Finalized(v) && v.levelZero >= L0_STOP_WRITES_TRIGGER
    ensures NeedsCompaction(v)
  {
  }

  lemma StepKeepsInv(s: State, step: Step)
    requires Inv(s) && Enabled(s, step)
    ensures Inv(Next(s, step))
  {
    if s.version.levelZero >= L0_STOP_WRITES_TRIGGER {
      StopTriggerNeedsCompaction(s.version);
    }
    match step
    case MakeRoom(id, force, allowDelay, room) =>
    case AwaitFlush(id) =>
    case StartManual(id) =>
    case AwaitManual(id) =>
    case LeaveManual(id) =>
    case SeekCharged(current) =>
    case SyncError =>
    case ShutDown =>
    case BeginAndEnd =>
    case Begin(job) =>
    case FlushWithin(ok, v) =>
    case End(ok, v) =>
  }

  ghost predicate IsRun(states: seq<State>, steps: seq<Step>) {
    && |states| == |steps| + 1 && Opened(states[0])
    && forall i | 0 <= i < |steps| :: Enabled(states[i], steps[i]) && states[i + 1] == Next(states[i], steps[i])
  }

  lemma OpenedInv(s: State)
    ensures Opened(s) ==> Inv(s)
  {
  }

  lemma {:induction false} RunKeepsInv(states: seq<State>, steps: seq<Step>, n: nat)
    requires IsRun(states, steps) && n < |states|
    ensures Inv(states[n])
    decreases n
  {
    OpenedInv(states[0]);
    hide Inv, Enabled, Next, Opened;
    if n > 0 {
      RunKeepsInv(states, steps, n - 1);
      assert Enabled(states[n - 1], steps[n - 1]);
      StepKeepsInv(states[n - 1], steps[n - 1]);
    }
  }

  // The steps that finish the background call on its way.
  ghost function Finish(s: State): (steps: seq<Step>)
    ensures 1 <= |steps| <= 2
  {
    if !s.job.NoJob? then [End(true, s.version)]
    else if s.shuttingDown || s.error then [BeginAndEnd]
    else if s.imm then [Begin(Flushing), End(true, s.version)]
    else if s.manual.Some? then [Begin(Compacting(s.manual)), End(true, s.version)]
    else if NeedsCompaction(s.version) then [Begin(Compacting(None)), End(true, s.version)]
    else [BeginAndEnd]
  }

  ghost predicate WakesAll(s: State, steps: seq<Step>)
    decreases |steps|
  {
    if steps == [] then s.waiters == {} else Enabled(s, steps[0]) && WakesAll(Next(s, steps[0]), steps[1..])
  }

  // No wait lacks a future wake-up: in every reachable state, level 0 at the stop trigger, a
  // full memtable, a manual compaction or a score of one have a background call scheduled, or
  // there is an error or a shutdown; and while anyone waits, the background thread alone can
  // finish its call, and doing so wakes everyone.
  lemma NoStuckWriter(states: seq<State>, steps: seq<Step>, n: nat)
    requires IsRun(states, steps) && n < |states|
    ensures var s := states[n];
            && (HasWork(s) || s.version.levelZero >= L0_STOP_WRITES_TRIGGER ==>
                  s.scheduled || s.error || s.shuttingDown)
            && (s.waiters != {} && !s.shuttingDown ==> s.scheduled && WakesAll(s, Finish(s)))
  {
    var s := states[n];
    RunKeepsInv(states, steps, n);
    if s.version.levelZero >= L0_STOP_WRITES_TRIGGER {
      StopTriggerNeedsCompaction(s.version);
    }
    if s.waiters != {} && !s.shuttingDown {
      FinishWakesAll(s);
    }
  }

  ghost function After(s: State, steps: seq<Step>): State
    decreases |steps|
  {
    if steps == [] then s else After(Next(s, steps[0]), steps[1..])
  }

  // A call that finds nothing to do, or one whose job succeeds
  ghost predicate WholeCall(s: State, steps: seq<Step>) {
    if |steps| == 1 then steps[0].BeginAndEnd? && Enabled(s, steps[0])
    else
      && |steps| == 2 && steps[0].Begin? && steps[1].End? && steps[1].ok
      && Enabled(s, steps[0]) && Enabled(Next(s, steps[0]), steps[1])
  }

  // A background call does the work it was scheduled for: a full memtable first, then the
  // manual request; afterwards everyone is awake and another call is on its way exactly if work
  // is left.
  lemma CallServes(s: State, steps: seq<Step>)
    requires Inv(s) && s.scheduled && s.job.NoJob? && !s.error && !s.shuttingDown && WholeCall(s, steps)
    ensures var t := After(s, steps);
            && t.job.NoJob? && !t.error && t.waiters == {} && !t.imm
            && t.manual == (if s.imm then s.manual else None)
            && t.version == (if |steps| == 1 then s.version else steps[1].version)
            && (t.scheduled <==> t.manual.Some? || t.version.seekPending || t.version.score >= 1.0)
  {
    var t := Next(s, steps[0]);
    assert After(s, steps) == After(t, steps[1..]);
    if |steps| == 2 {
      assert steps[1..] == [steps[1]] && After(t, [steps[1]]) == After(Next(t, steps[1]), []);
    } else {
      assert steps[1..] == [];
    }
  }

  lemma FinishWakesAll(s: State)
    requires Inv(s) && s.scheduled
    ensures WakesAll(s, Finish(s))
  {
    var steps := Finish(s);
    var t := Next(s, steps[0]);
    if |steps| == 2 {
      assert steps[1..][0] == steps[1] && steps[1..][1..] == [];
    }
  }

  // ---- The manual slot

  // A manual compaction ends by updating the request in the manual slot. The running
  // compaction can lose the slot in the next step exactly after an error or in a shutdown,
  // when the requester leaves; otherwise the slot holds the same request until the end.
  lemma SlotLostIff(s: State, id: nat)
    requires Inv(s) && s.job == Compacting(Some(id)) && s.manual == Some(id)
    ensures (exists step :: LosesSlot(s, step)) <==> s.error || s.shuttingDown
    ensures forall step :: LosesSlot(s, step) ==> step == LeaveManual(id) && Next(s, step).manual.None?
  {
    if s.error || s.shuttingDown {
      assert LosesSlot(s, LeaveManual(id));
    }
  }

  // The job goes on and the slot no longer holds its request.
  ghost predicate LosesSlot(s: State, step: Step) {
    Enabled(s, step) && Next(s, step).job == s.job && ServesRequest(s.job) && Next(s, step).manual != s.job.request
  }

  // The steps after `begin` leave one compaction for the request running.
  ghost predicate Running(states: seq<State>, steps: seq<Step>, begin: nat, n: nat, id: nat) {
    && IsRun(states, steps) && begin < n < |states| && steps[begin] == Begin(Compacting(Some(id)))
    && forall k | begin < k <= n :: states[k].job == Compacting(Some(id))
  }

  // Over a run: the request is in the slot exactly as long as its thread has not left.
  lemma {:induction false} SlotHeldIff(states: seq<State>, steps: seq<Step>, begin: nat, n: nat, id: nat)
    requires Running(states, steps, begin, n, id)
    ensures states[n].manual == Some(id) <==> forall k | begin < k < n :: steps[k] != LeaveManual(id)
    ensures states[n].manual != Some(id) ==> states[n].manual.None? && (states[n].error || states[n].shuttingDown)
    decreases n
  {
    hide Inv, Enabled, Next, Opened;
    RunKeepsInv(states, steps, n - 1);
    SlotStep(states[n - 1], steps[n - 1], id);
    assert Enabled(states[n - 1], steps[n - 1]) && states[n] == Next(states[n - 1], steps[n - 1]);
    if n - 1 > begin {
      SlotHeldIff(states, steps, begin, n - 1, id);
    }
  }

  lemma SlotStep(s: State, step: Step, id: nat)
    requires Inv(s)
    ensures Enabled(s, step) && step == Begin(Compacting(Some(id))) ==> Next(s, step).manual == Some(id)
    ensures Enabled(s, step) && s.job == Compacting(Some(id)) == Next(s, step).job ==>
              && (Next(s, step).manual == Some(id) <==> s.manual == Some(id) && step != LeaveManual(id))
              && (Next(s, step).manual != Some(id) ==>
                    Next(s, step).manual.None? && (Next(s, step).error || Next(s, step).shuttingDown))
  {
  }

  // Such a run exists: the compaction works on and its requester has left.
  lemma ManualSlotCanBeGone() returns (states: seq<State>, steps: seq<Step>)
    ensures |steps| == 4 && Running(states, steps, 1, 4, 7) && states[4].manual.None?
  {
    var v := Shape(0, 0.0, false);
    var s0 := State(v, false, None, false, NoJob, false, false, {});
    steps := [StartManual(7), Begin(Compacting(Some(7))), SyncError, LeaveManual(7)];
    var s1 := Next(s0, steps[0]);
    var s2 := Next(s1, steps[1]);
    var s3 := Next(s2, steps[2]);
    states := [s0, s1, s2, s3, Next(s3, steps[3])];
  }
}
