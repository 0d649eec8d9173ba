/** Guarded changes: under an advisory lock a checkpoint is saved, then a record, and only
    then the change runs. Any number of runs against one target, interleaved at every effect;
    each effect may fail, each process may be killed, and the connection that holds the lock
    may be lost without its run noticing. No one else writes to the database. */
module GuardedChange {
  import opened Wrappers
  import opened SchemaReset

  datatype Status = Running | Succeeded | Failed

  // Where a run stands: what it does next.
  datatype Pc =
    | Locking | Preparing | ReadingSchema | Scoping | Dumping | SavingRecord | Ready | Changing
    | RecordingFailure | Summarizing | RecordingSuccess | Sending | Closing | Ended | Killed

  datatype Process = Process(pc: Pc, migration: bool, scope: set<Schema>, dump: Content)

  // `stored`: whether a save that is reported to have failed took effect all the same.
  datatype Event =
    | TryLock(got: bool)
    | Prepare(ok: bool)
    | ReadSchema(ok: bool)
    | ReadScope(ok: bool, scope: set<Schema>)
    | Dump(ok: bool, schema: Schema, objects: seq<SchemaObject>)
    | SaveCheckpoint(ok: bool, stored: bool)
    | SaveRecord(ok: bool, stored: bool)
    | Begin
    | Write(db: Database)
    | EndChange(ok: bool)
    | SaveFailure(ok: bool, stored: bool)
    | Summarize
    | SaveSuccess(ok: bool, stored: bool)
    | Send
    | Close
    | Kill
    | Lose  // the connection with the lock, while the run goes on

  // --------------------------------------------------------------------- one process

  predicate Honest(e: Event) {
    (e.SaveCheckpoint? || e.SaveRecord? || e.SaveFailure? || e.SaveSuccess?) && e.ok ==> e.stored
  }

  /** What a process can do next, given only its own state. */
  predicate ProcessCan(p: Process, e: Event) {
    && Honest(e)
    && match e
       case TryLock(_) => p.pc.Locking?
       case Prepare(_) => p.pc.Preparing?
       case ReadSchema(_) => p.pc.ReadingSchema?
       case ReadScope(_, _) => p.pc.Scoping?
       case Dump(_, s, _) => p.pc.Dumping? && s in p.scope && s !in p.dump
       case SaveCheckpoint(_, _) => p.pc.Dumping? && p.dump.Keys == p.scope
       case SaveRecord(_, _) => p.pc.SavingRecord?
       case Begin => p.pc.Ready?
       case Write(_) => p.pc.Changing?
       case EndChange(_) => p.pc.Changing?
       case SaveFailure(_, _) => p.pc.RecordingFailure?
       case Summarize => p.pc.Summarizing?
       case SaveSuccess(_, _) => p.pc.RecordingSuccess?
       case Send => p.pc.Sending?
       case Close => p.pc.Closing?
       case Kill => !p.pc.Ended? && !p.pc.Killed?
       case Lose => HoldsLock(p.pc)
  }

  function ProcessAfter(p: Process, e: Event): Process {
    match e
    case TryLock(got) => p.(pc := if got then Preparing else Ended)
    case Prepare(ok) => p.(pc := if !ok then Closing else if p.migration then ReadingSchema else Scoping)
    case ReadSchema(ok) => p.(pc := if ok then Scoping else Closing)
    case ReadScope(ok, scope) =>
      if ok && scope != {} then p.(pc := Dumping, scope := scope, dump := map[]) else p.(pc := Closing)
    case Dump(ok, s, objects) => if ok then p.(dump := p.dump[s := objects]) else p.(pc := Closing)
    case SaveCheckpoint(ok, _) => p.(pc := if ok then SavingRecord else Closing)
    case SaveRecord(ok, _) => p.(pc := if ok then Ready else Closing)
    case Begin => p.(pc := Changing)
    case Write(_) => p
    case EndChange(ok) =>
      p.(pc := if !ok then RecordingFailure else if p.migration then Summarizing else RecordingSuccess)
    case SaveFailure(ok, _) => p.(pc := if ok then Sending else Closing)
    case Summarize => p.(pc := RecordingSuccess)
    case SaveSuccess(ok, _) => p.(pc := if ok then Sending else Closing)
    case Send => p.(pc := Closing)
    case Close => p.(pc := Ended)
    case Kill => p.(pc := Killed)
    case Lose => p
  }

  predicate HoldsLock(pc: Pc) {
    !pc.Locking? && !pc.Ended? && !pc.Killed?
  }

  // ----------------------------------------------------------------- all of them

  // Each run has its own fresh number, which is also that of its checkpoint and record.
  // `lost` are the runs that go on without the lock they had.
  datatype System = System(
    db: Database, holder: Option<nat>, lost: set<nat>, processes: map<nat, Process>,
    checkpoints: map<nat, Content>, records: map<nat, Status>)

  datatype Step = Step(p: nat, event: Event)

  ghost predicate Init(s: System) {
    && s.holder.None? && s.lost == {} && s.checkpoints == map[] && s.records == map[]
    && forall p :: p in s.processes ==> s.processes[p].pc.Locking?
  }

  ghost predicate Enabled(s: System, step: Step) {
    && step.p in s.processes && ProcessCan(s.processes[step.p], step.event)
    && match step.event
       case TryLock(got) => got ==> s.holder.None?
       case ReadScope(ok, scope) => ok ==> scope == Scope(s.db)
       case Dump(ok, schema, objects) => ok ==> schema in s.db && objects == s.db[schema].objects
       case Lose => s.holder == Some(step.p)
       case _ => true
  }

  function HolderAfter(holder: Option<nat>, p: nat, e: Event): Option<nat> {
    if e.TryLock? && e.got then Some(p)
    else if (e.Close? || e.Kill? || e.Lose?) && holder == Some(p) then None
    else holder
  }

  function LostAfter(lost: set<nat>, p: nat, e: Event): set<nat> {
    if e.Lose? then lost + {p} else if e.Close? || e.Kill? then lost - {p} else lost
  }

  function RecordsAfter(records: map<nat, Status>, p: nat, e: Event): map<nat, Status> {
    match e
    case SaveRecord(_, stored) => if stored then records[p := Running] else records
    case SaveFailure(_, stored) => if stored then records[p := Status.Failed] else records
    case SaveSuccess(_, stored) => if stored then records[p := Succeeded] else records
    case _ => records
  }

  /** A save that took effect leaves the record with its status, also if it was reported to
      have failed; one that did not leaves it as it was. */
  lemma SaveLeavesRecord(records: map<nat, Status>, p: nat, e: Event)
    requires e.SaveRecord? || e.SaveFailure? || e.SaveSuccess?
    ensures !e.stored ==> RecordsAfter(records, p, e) == records
    ensures e.stored ==>
              && p in RecordsAfter(records, p, e)
              && (RecordsAfter(records, p, e)[p].Running? <==> e.SaveRecord?)
              && (RecordsAfter(records, p, e)[p].Succeeded? <==> e.SaveSuccess?)
              && forall q :: q != p ==> (q in RecordsAfter(records, p, e) <==> q in records)
                                        && (q in records ==> RecordsAfter(records, p, e)[q] == records[q])
  {
  }

  ghost function After(s: System, step: Step): System
    requires step.p in s.processes
  {
    var p, e := step.p, step.event;
    System(
      if e.Write? then e.db else s.db,
      HolderAfter(s.holder, p, e),
      LostAfter(s.lost, p, e),
      s.processes[p := ProcessAfter(s.processes[p], e)],
      if e.SaveCheckpoint? && e.stored then s.checkpoints[p := s.processes[p].dump] else s.checkpoints,
      RecordsAfter(s.records, p, e))
  }

  // ------------------------------------------------------------------ the invariant

  /** The dump so far agrees with the database. */
  ghost predicate DumpInv(db: Database, p: Process) {
    p.scope == Scope(db) && forall s :: s in p.dump ==> s in p.scope && p.dump[s] == db[s].objects
  }

  ghost predicate BeforeChange(pc: Pc) {
    pc.Locking? || pc.Preparing? || pc.ReadingSchema? || pc.Scoping? || pc.Dumping? || pc.SavingRecord? || pc.Ready?
  }

  ghost predicate UnderChange(pc: Pc) {
    pc.Changing? || pc.RecordingFailure? || pc.Summarizing? || pc.RecordingSuccess?
  }

  ghost predicate ProcessInv(s: System, p: nat)
    requires p in s.processes
  {
    var pc := s.processes[p].pc;
    && (s.holder == Some(p) <==> HoldsLock(pc) && p !in s.lost)
    && (p in s.lost ==> HoldsLock(pc))
    && (pc.Dumping? ==> s.processes[p].dump.Keys <= s.processes[p].scope)
    && (pc.SavingRecord? || pc.Ready? || UnderChange(pc) ==> p in s.checkpoints)
    && (pc.Ready? || UnderChange(pc) ==> p in s.records && s.records[p] == Running)
    && (pc.Sending? ==> p in s.records && s.records[p] != Running)
    && (BeforeChange(pc) && !pc.Ready? ==> p !in s.records)
    && (BeforeChange(pc) && !pc.SavingRecord? && !pc.Ready? ==> p !in s.checkpoints)
  }

  /** What a run has saved so far agrees with the database. */
  ghost predicate ExactInv(s: System, p: nat)
    requires p in s.processes
  {
    var pc := s.processes[p].pc;
    && (pc.Dumping? ==> DumpInv(s.db, s.processes[p]))
    && (pc.SavingRecord? || pc.Ready? ==> p in s.checkpoints && s.checkpoints[p] == Captured(s.db))
  }

  ghost predicate Inv(s: System) {
    forall p :: p in s.processes ==> ProcessInv(s, p)
  }

  lemma InitInv(s: System)
    requires Init(s)
    ensures Inv(s)
  {
  }

  lemma DumpIsCaptured(db: Database, p: Process)
    requires DumpInv(db, p) && p.dump.Keys == p.scope
    ensures p.dump == Captured(db)
  {
  }

  /** The process that takes the step keeps to the invariant. */
  lemma OwnStepInv(s: System, step: Step)
    requires Inv(s) && Enabled(s, step)
    ensures ProcessInv(After(s, step), step.p)
  {
    hide *;
    CanIsKnown(s, step);
    var e := step.event;
    if e.ReadScope? || e.Dump? {
      DumpStepInv(s, step);
    } else if e.SaveCheckpoint? || e.SaveRecord? {
      SaveStepInv(s, step);
    } else if e.Begin? || e.Write? || e.EndChange? || e.Summarize? {
      ChangeStepInv(s, step);
    } else if e.SaveFailure? || e.SaveSuccess? || e.Send? {
      OutcomeStepInv(s, step);
    } else if e.Prepare? || e.ReadSchema? {
      PrepareStepInv(s, step);
    } else {
      LockStepInv(s, step);
    }
  }

  lemma LockStepInv(s: System, step: Step)
    requires Inv(s) && Enabled(s, step)
    requires var e := step.event; e.TryLock? || e.Close? || e.Kill? || e.Lose?
    ensures ProcessInv(After(s, step), step.p)
  {
    assert ProcessInv(s, step.p);
    hide Inv;
  }

  lemma PrepareStepInv(s: System, step: Step)
    requires Inv(s) && Enabled(s, step) && (step.event.Prepare? || step.event.ReadSchema?)
    ensures ProcessInv(After(s, step), step.p)
  {
    assert ProcessInv(s, step.p);
    hide Inv;
  }

  lemma DumpStepInv(s: System, step: Step)
    requires Inv(s) && Enabled(s, step)
    requires step.event.ReadScope? || step.event.Dump?
    ensures ProcessInv(After(s, step), step.p)
  {
    hide Scope, Captured, Restorable, DumpInv;
    assert ProcessInv(s, step.p);
  }

  lemma SaveStepInv(s: System, step: Step)
    requires Inv(s) && Enabled(s, step)
    requires step.event.SaveCheckpoint? || step.event.SaveRecord?
    ensures ProcessInv(After(s, step), step.p)
  {
    assert ProcessInv(s, step.p);
    hide Inv;
  }

  lemma ChangeStepInv(s: System, step: Step)
    requires Inv(s) && Enabled(s, step)
    requires var e := step.event; e.Begin? || e.Write? || e.EndChange? || e.Summarize?
    ensures ProcessInv(After(s, step), step.p)
  {
    assert ProcessInv(s, step.p);
    hide Inv;
  }

  lemma OutcomeStepInv(s: System, step: Step)
    requires Inv(s) && Enabled(s, step)
    requires var e := step.event; e.SaveFailure? || e.SaveSuccess? || e.Send?
    ensures ProcessInv(After(s, step), step.p)
  {
    assert ProcessInv(s, step.p);
    hide Inv;
  }

  /** The others keep to it as well. */
  lemma OtherStepInv(s: System, step: Step, q: nat)
    requires Inv(s) && Enabled(s, step) && q in s.processes && q != step.p
    ensures ProcessInv(After(s, step), q)
  {
    hide Scope, Captured, Restorable, DumpInv, ProcessAfter;
    assert ProcessInv(s, q) && ProcessInv(s, step.p);
  }

  lemma StepInv(s: System, step: Step)
    requires Inv(s) && Enabled(s, step)
    ensures Inv(After(s, step))
  {
    hide Enabled, ProcessInv, ProcessAfter, HolderAfter, RecordsAfter;
    assert step.p in s.processes by { CanIsKnown(s, step); }
    forall q | q in s.processes ensures ProcessInv(After(s, step), q) {
      if q == step.p {
        OwnStepInv(s, step);
      } else {
        OtherStepInv(s, step, q);
      }
    }
  }

  /** A run's own steps keep what it has saved exact. */
  lemma ExactOwnStep(s: System, step: Step)
    requires Enabled(s, step) && ExactInv(s, step.p)
    ensures ExactInv(After(s, step), step.p)
  {
    hide Scope, Captured, Restorable, DumpInv, HolderAfter, RecordsAfter, LostAfter;
    if ReadsScope(step, step.p) {
      ExactAtScope(s, step);
    } else if step.event.Dump? {
      ExactDump(s, step);
    } else if step.event.SaveCheckpoint? {
      DumpIsCaptured(s.db, s.processes[step.p]);
    }
  }

  lemma ExactDump(s: System, step: Step)
    requires Enabled(s, step) && ExactInv(s, step.p) && step.event.Dump?
    ensures ExactInv(After(s, step), step.p)
  {
    hide Scope, Captured, Restorable, HolderAfter, RecordsAfter, LostAfter;
  }

  lemma ExactAtScope(s: System, step: Step)
    requires Enabled(s, step) && ReadsScope(step, step.p)
    ensures ExactInv(After(s, step), step.p)
  {
    hide Scope, Captured, Restorable, HolderAfter, RecordsAfter, LostAfter;
  }

  /** The steps of others do so unless they write. */
  lemma ExactOtherStep(s: System, step: Step, p: nat)
    requires Enabled(s, step) && p in s.processes && ExactInv(s, p) && p != step.p && !step.event.Write?
    ensures ExactInv(After(s, step), p)
  {
    hide Scope, Captured, Restorable, DumpInv, ProcessAfter, HolderAfter, RecordsAfter, LostAfter;
  }

  ghost predicate ReadsScope(step: Step, p: nat) {
    step.p == p && step.event.ReadScope? && step.event.ok && step.event.scope != {}
  }

  /** As long as no run goes on without its lock, only the holder can write. */
  lemma OnlyHolderWrites(s: System, step: Step, p: nat)
    requires Inv(s) && Enabled(s, step) && s.lost == {} && step.event.Write?
    requires p in s.processes && HoldsLock(s.processes[p].pc)
    ensures step.p == p
  {
    assert ProcessInv(s, p) && ProcessInv(s, step.p);
  }

  lemma CanIsKnown(s: System, step: Step)
    requires Enabled(s, step)
    ensures step.p in s.processes
  {
  }

  // --------------------------------------------------------------------- whole runs

  ghost predicate IsRun(run: seq<System>, steps: seq<Step>) {
    && |run| == |steps| + 1 && Init(run[0])
    && forall i :: 0 <= i < |steps| ==> Enabled(run[i], steps[i]) && run[i + 1] == After(run[i], steps[i])
  }

  lemma {:induction false} RunInv(run: seq<System>, steps: seq<Step>, i: nat)
    requires IsRun(run, steps) && i < |run|
    ensures Inv(run[i]) && run[i].processes.Keys == run[0].processes.Keys
  {
    hide Inv, Enabled, ProcessAfter, HolderAfter, RecordsAfter;
    if i == 0 {
      InitInv(run[0]);
    } else {
      RunInv(run, steps, i - 1);
      CanIsKnown(run[i - 1], steps[i - 1]);
      StepInv(run[i - 1], steps[i - 1]);
    }
  }

  /** How far a process is from its end. */
  function Rank(pc: Pc): nat {
    match pc
    case Locking => 13 case Preparing => 12 case ReadingSchema => 11 case Scoping => 10 case Dumping => 9
    case SavingRecord => 8 case Ready => 7 case Changing => 6 case RecordingFailure => 5 case Summarizing => 4
    case RecordingSuccess => 3 case Sending => 2 case Closing => 1 case Ended => 0 case Killed => 0
  }

  /** Every own step brings a process nearer to its end, except that each schema of the
      scope is dumped once and that the change itself may write any number of times. */
  lemma StepsAreProgress(p: Process, e: Event)
    requires ProcessCan(p, e)
    ensures var q := ProcessAfter(p, e);
      || Rank(q.pc) < Rank(p.pc)
      || (e.Dump? && q.pc == p.pc && q.scope == p.scope && q.scope - q.dump.Keys < p.scope - p.dump.Keys)
      || ((e.Write? || e.Lose?) && q == p)
  {
    if e.Dump? && e.ok {
      var q := ProcessAfter(p, e);
      assert q.dump.Keys == p.dump.Keys + {e.schema};
      assert e.schema in p.scope - p.dump.Keys;
    }
  }

  /** A holder of the lock can always go on by itself, whatever the others do. */
  lemma HolderIsNeverStuck(s: System, p: nat)
    requires Inv(s) && s.holder == Some(p) && p in s.processes
    ensures exists e: Event :: !e.Kill? && !e.Lose? && Enabled(s, Step(p, e))
  {
    hide Scope, Captured, Restorable;
    assert ProcessInv(s, p);
    var q := s.processes[p];
    var missing: Schema := [];
    if q.pc.Dumping? && q.dump.Keys != q.scope {
      assert q.scope == q.dump.Keys + (q.scope - q.dump.Keys);
      missing :| missing in q.scope - q.dump.Keys;
    }
    var e := match q.pc
      case Preparing => Prepare(true)
      case ReadingSchema => ReadSchema(true)
      case Scoping => ReadScope(true, Scope(s.db))
      case Dumping => if q.dump.Keys == q.scope then SaveCheckpoint(true, true)
                      else Dump(false, missing, [])
      case SavingRecord => SaveRecord(true, true)
      case Ready => Begin
      case Changing => EndChange(true)
      case RecordingFailure => SaveFailure(true, true)
      case Summarizing => Summarize
      case RecordingSuccess => SaveSuccess(true, true)
      case Sending => Send
      case _ => Close;
    assert Enabled(s, Step(p, e));
  }

  /** Whatever a run is doing can go wrong: it can be killed while it lives, and lose its lock
      while it has it. */
  lemma AnythingCanStop(s: System, p: nat)
    requires Inv(s) && p in s.processes
    ensures !s.processes[p].pc.Ended? && !s.processes[p].pc.Killed? ==> Enabled(s, Step(p, Kill))
    ensures s.holder == Some(p) <==> Enabled(s, Step(p, Lose))
  {
    assert ProcessInv(s, p);
  }

  /** Each effect can fail, a save also after it took effect. */
  lemma EffectsCanFail(p: Process, stored: bool)
    ensures p.pc.Locking? ==> ProcessCan(p, TryLock(false))
    ensures p.pc.Preparing? ==> ProcessCan(p, Prepare(false))
    ensures p.pc.ReadingSchema? ==> ProcessCan(p, ReadSchema(false))
    ensures p.pc.Scoping? ==> ProcessCan(p, ReadScope(false, {}))
    ensures p.pc.Dumping? && p.dump.Keys == p.scope ==> ProcessCan(p, SaveCheckpoint(false, stored))
    ensures p.pc.SavingRecord? ==> ProcessCan(p, SaveRecord(false, stored))
    ensures p.pc.Changing? ==> ProcessCan(p, EndChange(false))
    ensures p.pc.RecordingFailure? ==> ProcessCan(p, SaveFailure(false, stored))
    ensures p.pc.RecordingSuccess? ==> ProcessCan(p, SaveSuccess(false, stored))
  {
  }

  /** A run that goes on to send its record has saved how the change ended. */
  lemma SentIsFinished(run: seq<System>, steps: seq<Step>, i: nat, p: nat)
    requires IsRun(run, steps) && i < |run| && p in run[i].processes && run[i].processes[p].pc.Sending?
    ensures p in run[i].records && run[i].records[p] != Running
  {
    hide After, Enabled;
    RunInv(run, steps, i);
    assert ProcessInv(run[i], p);
  }

  /** When an event has its turn, by how far the run then is from its end. */
  function Turn(e: Event): nat {
    match e
    case TryLock(_) => 13 case Prepare(_) => 12 case ReadSchema(_) => 11 case ReadScope(_, _) => 10
    case Dump(_, _, _) => 9 case SaveCheckpoint(_, _) => 9 case SaveRecord(_, _) => 8 case Begin => 7
    case Write(_) => 6 case EndChange(_) => 6 case SaveFailure(_, _) => 5 case Summarize => 4
    case SaveSuccess(_, _) => 3 case Send => 2 case Close => 1 case Kill => 0 case Lose => 0
  }

  /** Only what has its turn happens, apart from a kill or the loss of the lock. */
  lemma EachInItsTurn(p: Process, e: Event)
    requires ProcessCan(p, e) && !e.Kill? && !e.Lose?
    ensures Rank(p.pc) == Turn(e)
  {
  }

  /** The checkpoint is what has been dumped, if the save took effect. */
  lemma SaveLeavesCheckpoint(s: System, p: nat, ok: bool, stored: bool)
    requires p in s.processes
    ensures After(s, Step(p, SaveCheckpoint(ok, stored))).checkpoints
            == if stored then s.checkpoints[p := s.processes[p].dump] else s.checkpoints
  {
  }

  // Safety, from the outside: what the steps of a run show.

  lemma StepKeepsOrder(s: System, step: Step, p: nat)
    requires Enabled(s, step) && p in s.processes
    ensures p in After(s, step).processes
    ensures Rank(After(s, step).processes[p].pc) <= Rank(s.processes[p].pc)
    ensures step == Step(p, Begin) ==> s.processes[p].pc.Ready? && Rank(After(s, step).processes[p].pc) < Rank(Ready)
  {
    if step.p == p {
      StepsAreProgress(s.processes[p], step.event);
    }
  }

  lemma {:induction false} RankFalls(run: seq<System>, steps: seq<Step>, i: nat, k: nat, p: nat)
    requires IsRun(run, steps) && i <= k < |run| && p in run[i].processes
    ensures p in run[k].processes && Rank(run[k].processes[p].pc) <= Rank(run[i].processes[p].pc)
  {
    hide Rank, After, Enabled;
    if i < k {
      RankFalls(run, steps, i, k - 1, p);
      StepKeepsOrder(run[k - 1], steps[k - 1], p);
    }
  }

  /** A change starts at most once. */
  lemma ChangeBeginsOnce(run: seq<System>, steps: seq<Step>, i: nat, k: nat, p: nat)
    requires IsRun(run, steps) && i < k < |steps| && steps[i] == Step(p, Begin)
    ensures steps[k] != Step(p, Begin)
  {
    hide After, Enabled;
    assert Enabled(run[i], steps[i]);
    CanIsKnown(run[i], steps[i]);
    StepKeepsOrder(run[i], steps[i], p);
    RankFalls(run, steps, i + 1, k, p);
    if steps[k] == Step(p, Begin) {
      assert Enabled(run[k], steps[k]);
      StepKeepsOrder(run[k], steps[k], p);
    }
  }

  /** Once saved, a checkpoint is never written again. */
  lemma CheckpointStays(s: System, step: Step, p: nat)
    requires Inv(s) && Enabled(s, step) && p in s.checkpoints
    ensures p in After(s, step).checkpoints && After(s, step).checkpoints[p] == s.checkpoints[p]
  {
    hide Captured, Scope, ProcessAfter, Restorable, HolderAfter, RecordsAfter;
    assert ProcessInv(s, step.p);
  }

  lemma {:induction false} CheckpointKept(run: seq<System>, steps: seq<Step>, i: nat, k: nat, p: nat)
    requires IsRun(run, steps) && i <= k < |run| && p in run[i].checkpoints
    ensures p in run[k].checkpoints && run[k].checkpoints[p] == run[i].checkpoints[p]
  {
    hide After, Enabled, Inv;
    if i < k {
      CheckpointKept(run, steps, i, k - 1, p);
      RunInv(run, steps, k - 1);
      CheckpointStays(run[k - 1], steps[k - 1], p);
    }
  }

  /** A run that dumps or is about to begin has read the scope. */
  lemma {:induction false} ScopeWasRead(run: seq<System>, steps: seq<Step>, i: nat, p: nat) returns (r: nat)
    requires IsRun(run, steps) && i < |run| && p in run[i].processes
    requires var pc := run[i].processes[p].pc; pc.Dumping? || pc.SavingRecord? || pc.Ready?
    ensures r < i && ReadsScope(steps[r], p)
  {
    assert i > 0;
    var step := steps[i - 1];
    assert Enabled(run[i - 1], step) && run[i] == After(run[i - 1], step);
    hide HolderAfter, RecordsAfter, LostAfter, Scope, Restorable;
    if ReadsScope(step, p) {
      r := i - 1;
    } else {
      r := ScopeWasRead(run, steps, i - 1, p);
    }
  }

  ghost predicate OthersWrite(steps: seq<Step>, r: nat, i: nat, p: nat)
    requires i <= |steps|
  {
    exists x :: r < x < i && steps[x].event.Write? && steps[x].p != p
  }

  /** Until another run writes, what has been saved since the scope was read is exact. */
  lemma {:induction false} ExactSince(run: seq<System>, steps: seq<Step>, r: nat, i: nat, p: nat)
    requires IsRun(run, steps) && r < i < |run| && ReadsScope(steps[r], p) && !OthersWrite(steps, r, i, p)
    ensures p in run[i].processes && ExactInv(run[i], p)
  {
    hide After, Enabled, ExactInv, Inv;
    var step := steps[i - 1];
    assert Enabled(run[i - 1], step);
    CanIsKnown(run[i - 1], step);
    assert run[i] == After(run[i - 1], step);
    if r == i - 1 {
      ExactAtScope(run[i - 1], step);
      SameProcesses(run[i - 1], step);
    } else {
      ExactSince(run, steps, r, i - 1, p);
      RunInv(run, steps, i - 1);
      SameProcesses(run[i - 1], step);
      if step.p == p {
        ExactOwnStep(run[i - 1], step);
      } else {
        ExactOtherStep(run[i - 1], step, p);
      }
    }
  }

  lemma SameProcesses(s: System, step: Step)
    requires step.p in s.processes
    ensures After(s, step).processes.Keys == s.processes.Keys
  {
  }

  /** From state r to state i no run goes on without the lock it had. */
  ghost predicate NoLockIsLost(run: seq<System>, r: nat, i: nat)
    requires i < |run|
  {
    forall x :: r <= x <= i ==> run[x].lost == {}
  }

  lemma NoLossNoOtherWrites(run: seq<System>, steps: seq<Step>, r: nat, i: nat, m: nat, p: nat)
    requires IsRun(run, steps) && r < i <= m < |run| && i <= |steps| && NoLockIsLost(run, r, i)
    requires p in run[r + 1].processes && !run[r + 1].processes[p].pc.Locking?
    requires p in run[m].processes && Rank(run[m].processes[p].pc) > 0
    ensures !OthersWrite(steps, r, i, p)
  {
    hide After, Enabled, Inv, ProcessCan;
    forall x | r < x < i && steps[x].event.Write? ensures steps[x].p == p {
      RunInv(run, steps, x);
      RankFalls(run, steps, r + 1, x, p);
      RankFalls(run, steps, x, m, p);
      assert Enabled(run[x], steps[x]);
      OnlyHolderWrites(run[x], steps[x], p);
    }
  }

  lemma LeftLocking(s: System, step: Step, p: nat)
    requires Enabled(s, step) && ReadsScope(step, p)
    ensures p in After(s, step).processes && !After(s, step).processes[p].pc.Locking?
  {
  }

  /** When a change starts its record says running, its checkpoint is saved and stays as it
      is for ever, and the run has the lock or has lost it. If no other run has written
      since this one read the scope, the checkpoint holds exactly what the database's scope
      holds at that moment. That is so, and the run has the lock, if no run has gone on
      without its lock since then. */
  lemma ChangeNeedsCheckpoint(run: seq<System>, steps: seq<Step>, i: nat, k: nat, p: nat) returns (r: nat)
    requires IsRun(run, steps) && i < |steps| && i <= k < |run| && steps[i] == Step(p, Begin)
    ensures r < i && ReadsScope(steps[r], p)
    ensures p in run[i].records && run[i].records[p] == Running
    ensures run[i].holder == Some(p) || p in run[i].lost
    ensures p in run[i].checkpoints && p in run[k].checkpoints && run[k].checkpoints[p] == run[i].checkpoints[p]
    ensures !OthersWrite(steps, r, i, p) ==> run[i].checkpoints[p] == Captured(run[i].db)
    ensures NoLockIsLost(run, r, i) ==> run[i].holder == Some(p) && !OthersWrite(steps, r, i, p)
  {
    hide After, Captured, Scope, Restorable, OthersWrite, ReadsScope;
    RunInv(run, steps, i);
    assert Enabled(run[i], steps[i]) && ProcessInv(run[i], p);
    CheckpointKept(run, steps, i, k, p);
    r := ScopeWasRead(run, steps, i, p);
    assert Enabled(run[r], steps[r]) && run[r + 1] == After(run[r], steps[r]);
    LeftLocking(run[r], steps[r], p);
    if !OthersWrite(steps, r, i, p) {
      ExactSince(run, steps, r, i, p);
    }
    if NoLockIsLost(run, r, i) {
      NoLossNoOtherWrites(run, steps, r, i, i, p);
    }
  }

  /** Whoever is in the middle of a change has begun it. */
  lemma {:induction false} BeginHappened(run: seq<System>, steps: seq<Step>, i: nat, p: nat) returns (j: nat)
    requires IsRun(run, steps) && i < |run| && p in run[i].processes && UnderChange(run[i].processes[p].pc)
    ensures j < i && steps[j] == Step(p, Begin)
  {
    assert i > 0;
    var step := steps[i - 1];
    assert Enabled(run[i - 1], step) && run[i] == After(run[i - 1], step);
    hide HolderAfter, RecordsAfter, Scope, Restorable;
    if step == Step(p, Begin) {
      j := i - 1;
    } else {
      j := BeginHappened(run, steps, i - 1, p);
    }
  }

  /** Whenever the database changes, it is a change that has begun. If no run has gone on
      without its lock since this one read the scope, it holds the lock, no one else has
      written since, and its checkpoint is what the scope held before its first write. */
  lemma WritesAreGuarded(run: seq<System>, steps: seq<Step>, i: nat) returns (r: nat, j: nat)
    requires IsRun(run, steps) && i < |steps| && run[i + 1].db != run[i].db
    ensures r < j < i && ReadsScope(steps[r], steps[i].p) && steps[j] == Step(steps[i].p, Begin)
    ensures steps[i].p in run[i].checkpoints && (run[i].holder == Some(steps[i].p) || steps[i].p in run[i].lost)
    ensures NoLockIsLost(run, r, i) ==>
              && run[i].holder == Some(steps[i].p) && !OthersWrite(steps, r, i, steps[i].p)
              && run[i].checkpoints[steps[i].p] == Captured(run[j].db)
  {
    var p := steps[i].p;
    assert Enabled(run[i], steps[i]) && run[i + 1] == After(run[i], steps[i]);
    assert steps[i].event.Write?;
    j := BeginHappened(run, steps, i, p);
    r := ChangeNeedsCheckpoint(run, steps, j, i, p);
    RunInv(run, steps, i);
    assert ProcessInv(run[i], p);
    assert Enabled(run[r], steps[r]) && run[r + 1] == After(run[r], steps[r]);
    LeftLocking(run[r], steps[r], p);
    if NoLockIsLost(run, r, i) {
      NoLossNoOtherWrites(run, steps, r, i, i, p);
    }
  }

  /** Every acquired lock is released: a run that is over does not hold it, one that goes on
      holds it unless it has lost it, and when all runs are over or have not begun, nobody
      does. */
  lemma LockIsReleased(run: seq<System>, steps: seq<Step>, i: nat)
    requires IsRun(run, steps) && i < |run|
    ensures forall p :: p in run[i].processes ==>
              && (run[i].holder == Some(p) <==> HoldsLock(run[i].processes[p].pc) && p !in run[i].lost)
              && (p in run[i].lost ==> HoldsLock(run[i].processes[p].pc))
    ensures run[i].holder.Some? ==> run[i].holder.value in run[i].processes
  {
    hide After, Enabled, Captured, Scope, Restorable;
    RunInv(run, steps, i);
    forall p | p in run[i].processes
      ensures run[i].holder == Some(p) <==> HoldsLock(run[i].processes[p].pc) && p !in run[i].lost
      ensures p in run[i].lost ==> HoldsLock(run[i].processes[p].pc)
    {
      assert ProcessInv(run[i], p);
    }
    HolderIsKnown(run, steps, i);
  }

  lemma {:induction false} HolderIsKnown(run: seq<System>, steps: seq<Step>, i: nat)
    requires IsRun(run, steps) && i < |run|
    ensures run[i].holder.Some? ==> run[i].holder.value in run[i].processes
  {
    hide RecordsAfter, ProcessAfter, Scope;
    if i > 0 {
      HolderIsKnown(run, steps, i - 1);
      assert Enabled(run[i - 1], steps[i - 1]) && run[i] == After(run[i - 1], steps[i - 1]);
    }
  }

  // -------------------------------------------------------------- why the lock matters

  ghost function Last(run: seq<System>): System
    requires run != []
  {
    run[|run| - 1]
  }

  lemma Extend(run: seq<System>, steps: seq<Step>, step: Step) returns (longer: seq<System>, more: seq<Step>)
    requires IsRun(run, steps) && Enabled(Last(run), step)
    ensures IsRun(longer, more) && more == steps + [step] && longer[0] == run[0] && longer[|steps|] == Last(run)
    ensures step.p in Last(run).processes && Last(longer) == After(Last(run), step)
  {
    hide Enabled, Init;
    CanIsKnown(Last(run), step);
    hide After;
    longer, more := run + [After(Last(run), step)], steps + [step];
    forall i | 0 <= i < |more|
      ensures Enabled(longer[i], more[i]) && more[i].p in longer[i].processes
      ensures longer[i + 1] == After(longer[i], more[i])
    {
      assert i < |steps| ==> longer[i] == run[i] && longer[i + 1] == run[i + 1] && more[i] == steps[i];
      CanIsKnown(longer[i], more[i]);
    }
  }

  /** From `s` to `t` only run p has moved; it has the lock and has not written. */
  ghost predicate OnlyMoved(s: System, t: System, p: nat) {
    && t.db == s.db && t.holder == Some(p) && t.lost == s.lost && p in t.processes
    && (forall q :: q in s.processes && q != p ==> q in t.processes && t.processes[q] == s.processes[q])
    && (forall q :: q in s.checkpoints && q != p ==> q in t.checkpoints && t.checkpoints[q] == s.checkpoints[q])
  }

  predicate IsPreparation(e: Event) {
    e.Prepare? || e.ReadScope? || e.Dump? || e.SaveCheckpoint? || e.SaveRecord?
  }

  lemma Prepares(s: System, t: System, p: nat, e: Event)
    requires OnlyMoved(s, t, p) && IsPreparation(e)
    ensures var u := After(t, Step(p, e));
      && OnlyMoved(s, u, p) && u.processes[p] == ProcessAfter(t.processes[p], e)
      && (e.SaveCheckpoint? && e.stored ==> p in u.checkpoints && u.checkpoints[p] == t.processes[p].dump)
      && (!e.SaveCheckpoint? && p in t.checkpoints ==> p in u.checkpoints && u.checkpoints[p] == t.checkpoints[p])
  {
    hide ProcessAfter, RecordsAfter;
  }

  ghost predicate CanGetReady(s: System, p: nat, schema: Schema) {
    && s.holder.None? && Scope(s.db) == {schema}
    && p in s.processes && s.processes[p].pc.Locking? && !s.processes[p].migration
  }

  lemma OneMore(s: System, run: seq<System>, steps: seq<Step>, p: nat, e: Event)
    returns (longer: seq<System>, more: seq<Step>)
    requires IsRun(run, steps) && OnlyMoved(s, Last(run), p) && IsPreparation(e) && Enabled(Last(run), Step(p, e))
    ensures IsRun(longer, more) && longer != [] && more == steps + [Step(p, e)] && longer[0] == run[0]
    ensures var t, u := Last(run), Last(longer);
      && OnlyMoved(s, u, p) && p in t.processes && p in u.processes && u.db == s.db
      && u.processes[p] == ProcessAfter(t.processes[p], e)
      && (e.SaveCheckpoint? && e.stored ==> p in u.checkpoints && u.checkpoints[p] == t.processes[p].dump)
      && (!e.SaveCheckpoint? && p in t.checkpoints ==> p in u.checkpoints && u.checkpoints[p] == t.checkpoints[p])
  {
    longer, more := Extend(run, steps, Step(p, e));
    hide IsRun, ProcessAfter, After, Last;
    Prepares(s, Last(run), p, e);
  }

  lemma TakeLock(run: seq<System>, steps: seq<Step>, p: nat) returns (longer: seq<System>, more: seq<Step>)
    requires IsRun(run, steps) && Last(run).holder.None? && p in Last(run).processes
    requires Last(run).processes[p].pc.Locking?
    ensures IsRun(longer, more) && longer[0] == run[0] && OnlyMoved(Last(run), Last(longer), p)
    ensures Last(longer).processes[p] == Last(run).processes[p].(pc := Preparing)
  {
    longer, more := Extend(run, steps, Step(p, TryLock(true)));
    hide IsRun, Last;
  }

  lemma DumpOnly(s: System, run: seq<System>, steps: seq<Step>, p: nat, schema: Schema)
    returns (longer: seq<System>, more: seq<Step>)
    requires IsRun(run, steps) && OnlyMoved(s, Last(run), p) && Scope(s.db) == {schema} && schema in s.db
    requires Last(run).processes[p].pc.Preparing? && !Last(run).processes[p].migration
    ensures IsRun(longer, more) && longer[0] == run[0] && OnlyMoved(s, Last(longer), p)
    ensures var process := Last(longer).processes[p];
      process.pc.Dumping? && process.scope == {schema} && process.dump == map[schema := s.db[schema].objects]
  {
    hide IsRun, Last, Scope, After;
    longer, more := OneMore(s, run, steps, p, Prepare(true));
    assert Last(longer).processes[p].pc.Scoping?;
    longer, more := OneMore(s, longer, more, p, ReadScope(true, {schema}));
    var process := Last(longer).processes[p];
    assert process.pc.Dumping? && process.scope == {schema} && process.dump == map[];
    longer, more := OneMore(s, longer, more, p, Dump(true, schema, s.db[schema].objects));
  }

  lemma SaveBoth(s: System, run: seq<System>, steps: seq<Step>, p: nat)
    returns (longer: seq<System>, more: seq<Step>)
    requires IsRun(run, steps) && OnlyMoved(s, Last(run), p)
    requires var process := Last(run).processes[p]; process.pc.Dumping? && process.dump.Keys == process.scope
    ensures IsRun(longer, more) && longer[0] == run[0] && OnlyMoved(s, Last(longer), p)
    ensures Last(longer).processes[p].pc.Ready?
    ensures p in Last(longer).checkpoints && Last(longer).checkpoints[p] == Last(run).processes[p].dump
  {
    hide IsRun, Last, Scope, After;
    longer, more := OneMore(s, run, steps, p, SaveCheckpoint(true, true));
    assert Last(longer).processes[p].pc.SavingRecord?;
    longer, more := OneMore(s, longer, more, p, SaveRecord(true, true));
  }

  /** A run that finds the lock free gets ready, if nobody interferes. */
  lemma GetReady(run: seq<System>, steps: seq<Step>, p: nat, schema: Schema)
    returns (longer: seq<System>, more: seq<Step>)
    requires IsRun(run, steps) && CanGetReady(Last(run), p, schema)
    ensures IsRun(longer, more) && longer[0] == run[0]
    ensures var t := Last(longer);
      && OnlyMoved(Last(run), t, p) && t.processes[p].pc.Ready?
      && p in t.checkpoints && t.checkpoints[p] == Captured(Last(run).db)
  {
    var s := Last(run);
    assert schema in Scope(s.db) && Captured(s.db) == map[schema := s.db[schema].objects];
    hide IsRun, Last, Scope, Captured, Restorable;
    longer, more := TakeLock(run, steps, p);
    longer, more := DumpOnly(s, longer, more, p, schema);
    longer, more := SaveBoth(s, longer, more, p);
  }

  /** Without the condition the promise fails. Of two runs, one loses its connection when it
      is ready, the other gets the lock and writes whatever it likes, and then the first
      begins: its checkpoint is not what the database holds. */
  lemma LostLockBreaksTheGuard(s: System, p: nat, q: nat, schema: Schema, written: Database)
    returns (run: seq<System>, steps: seq<Step>)
    requires Init(s) && p != q && CanGetReady(s, p, schema) && CanGetReady(s, q, schema)
    ensures IsRun(run, steps) && run[0] == s && |steps| > 0 && steps[|steps| - 1] == Step(p, Begin)
    ensures var t := run[|steps| - 1];
      t.db == written && p in t.checkpoints && t.checkpoints[p] == Captured(s.db)
  {
    run, steps := [s], [];
    assert IsRun(run, steps) && Last(run) == s;
    hide IsRun, Last, Captured, Scope, Restorable, Init, After;
    run, steps := GetReady(run, steps, p, schema);
    run, steps := LoseIt(s, run, steps, p, q, schema);
    run, steps := GetReady(run, steps, q, schema);
    run, steps := OtherWrites(run, steps, p, q, written);
    run, steps := Begins(run, steps, p);
  }

  lemma Begins(run: seq<System>, steps: seq<Step>, p: nat) returns (longer: seq<System>, more: seq<Step>)
    requires IsRun(run, steps) && p in Last(run).processes && Last(run).processes[p].pc.Ready?
    ensures IsRun(longer, more) && longer[0] == run[0]
    ensures |more| > 0 && more[|more| - 1] == Step(p, Begin) && longer[|more| - 1] == Last(run)
  {
    longer, more := Extend(run, steps, Step(p, Begin));
    hide After, Init, Enabled;
  }

  lemma LoseIt(s: System, run: seq<System>, steps: seq<Step>, p: nat, q: nat, schema: Schema)
    returns (longer: seq<System>, more: seq<Step>)
    requires IsRun(run, steps) && OnlyMoved(s, Last(run), p) && Last(run).processes[p].pc.Ready? && p != q
    requires CanGetReady(s, q, schema) && p in Last(run).checkpoints
    ensures IsRun(longer, more) && longer[0] == run[0] && CanGetReady(Last(longer), q, schema)
    ensures var t := Last(longer);
      && t.db == s.db && p in t.processes && t.processes[p] == Last(run).processes[p]
      && p in t.checkpoints && t.checkpoints[p] == Last(run).checkpoints[p]
  {
    longer, more := Extend(run, steps, Step(p, Lose));
    hide IsRun, Last, Scope;
  }

  lemma OtherWrites(run: seq<System>, steps: seq<Step>, p: nat, q: nat, written: Database)
    returns (longer: seq<System>, more: seq<Step>)
    requires IsRun(run, steps) && p != q && p in Last(run).processes && Last(run).processes[p].pc.Ready?
    requires q in Last(run).processes && Last(run).processes[q].pc.Ready? && p in Last(run).checkpoints
    ensures IsRun(longer, more) && longer[0] == run[0]
    ensures var t := Last(longer);
      && t.db == written && p in t.processes && t.processes[p] == Last(run).processes[p]
      && p in t.checkpoints && t.checkpoints[p] == Last(run).checkpoints[p]
  {
    hide IsRun, Last;
    longer, more := Extend(run, steps, Step(q, Begin));
    longer, more := Extend(longer, more, Step(q, Write(written)));
  }

  // -------------------------------------------------------------- what records tell

  predicate AfterEnd(pc: Pc) {
    pc.RecordingFailure? || pc.Summarizing? || pc.RecordingSuccess?
  }

  lemma OnlyEndEnds(p: Process, e: Event)
    requires ProcessCan(p, e) && AfterEnd(ProcessAfter(p, e).pc)
    ensures if e.EndChange? then ProcessAfter(p, e).pc.RecordingFailure? == !e.ok
            else AfterEnd(p.pc) && p.pc.RecordingFailure? == ProcessAfter(p, e).pc.RecordingFailure?
  {
  }

  lemma ProcessMoves(s: System, step: Step, p: nat)
    requires Enabled(s, step) && p in After(s, step).processes
    ensures p in s.processes
    ensures if step.p == p
            then ProcessCan(s.processes[p], step.event)
                 && After(s, step).processes[p] == ProcessAfter(s.processes[p], step.event)
            else After(s, step).processes[p] == s.processes[p]
  {
    hide ProcessCan, ProcessAfter, HolderAfter, RecordsAfter, Scope;
  }

  lemma {:induction false} EndHappened(run: seq<System>, steps: seq<Step>, i: nat, p: nat) returns (j: nat)
    requires IsRun(run, steps) && i < |run| && p in run[i].processes && AfterEnd(run[i].processes[p].pc)
    ensures j < i && steps[j] == Step(p, EndChange(!run[i].processes[p].pc.RecordingFailure?))
  {
    hide ProcessCan, ProcessAfter, After, Enabled;
    assert i > 0;
    var step := steps[i - 1];
    CanIsKnown(run[i - 1], step);
    assert run[i] == After(run[i - 1], step);
    ProcessMoves(run[i - 1], step, p);
    if step.p == p {
      OnlyEndEnds(run[i - 1].processes[p], step.event);
    }
    if step.p == p && step.event.EndChange? {
      j := i - 1;
    } else {
      j := EndHappened(run, steps, i - 1, p);
    }
  }

  /** A record that says succeeded or failed tells how the change ended; the checkpoint it
      names was saved. */
  lemma {:induction false} RecordTellsOutcome(run: seq<System>, steps: seq<Step>, i: nat, p: nat) returns (j: nat)
    requires IsRun(run, steps) && i < |run| && p in run[i].records && run[i].records[p] != Running
    ensures j < i && steps[j] == Step(p, EndChange(run[i].records[p] == Succeeded))
  {
    assert i > 0;
    var step := steps[i - 1];
    assert Enabled(run[i - 1], step) && run[i] == After(run[i - 1], step);
    hide HolderAfter, LostAfter, ProcessAfter, Scope, Restorable;
    if step.p == p && run[i].records != run[i - 1].records {
      j := EndHappened(run, steps, i - 1, p);
    } else {
      j := RecordTellsOutcome(run, steps, i - 1, p);
    }
  }

  // -------------------------------------------------------- the program of one run

  /** A sequence of events that one process can go through. */
  ghost predicate Accepted(p: Process, trace: seq<Event>)
    decreases trace
  {
    trace == [] || (ProcessCan(AfterAll(p, trace[..|trace| - 1]), trace[|trace| - 1])
                    && Accepted(p, trace[..|trace| - 1]))
  }

  ghost function AfterAll(p: Process, trace: seq<Event>): Process
    decreases trace
  {
    if trace == [] then p else ProcessAfter(AfterAll(p, trace[..|trace| - 1]), trace[|trace| - 1])
  }

  ghost function Start(migration: bool): Process {
    Process(Locking, migration, {}, map[])
  }

  /** The effects of one guarded run, in order. `trace` is what has been done so far. */
  class Run {
    const migration: bool
    ghost var trace: seq<Event>
    // How many effects have failed.
    ghost var faults: nat

    constructor (migration: bool)
      ensures this.migration == migration && trace == [] && State() == Start(migration) && Valid()
    {
      this.migration := migration;
      trace := [];
      faults := 0;
    }

    ghost function State(): Process
      reads this`trace
    {
      AfterAll(Start(migration), trace)
    }

    ghost predicate Valid()
      reads this`trace
    {
      Accepted(Start(migration), trace)
    }

    ghost method Log(e: Event)
      requires Valid() && ProcessCan(State(), e)
      modifies this`trace
      ensures Valid() && State() == ProcessAfter(old(State()), e) && trace == old(trace) + [e]
    {
      assert (trace + [e])[..|trace|] == trace;
      trace := trace + [e];
    }

    /** An effect that succeeds or fails; it is logged with its outcome. */
    method Attempt(ghost event: bool -> Event) returns (ok: bool)
      requires Valid() && forall b :: ProcessCan(State(), event(b))
      modifies this`trace, this`faults
      ensures Valid() && State() == ProcessAfter(old(State()), event(ok)) && trace == old(trace) + [event(ok)]
      ensures faults == old(faults) + if ok then 0 else 1
    {
      ok := *;
      if !ok {
        faults := faults + 1;
      }
      Log(event(ok));
    }

    /** A save: it may take effect and still be reported to have failed. */
    method Save(ghost event: (bool, bool) -> Event) returns (ok: bool)
      requires Valid() && forall b, stored :: (b ==> stored) ==> ProcessCan(State(), event(b, stored))
      modifies this`trace, this`faults
      ensures exists stored ::
                && (ok ==> stored) && Valid() && State() == ProcessAfter(old(State()), event(ok, stored))
                && trace == old(trace) + [event(ok, stored)]
      ensures faults == old(faults) + if ok then 0 else 1
    {
      ok := *;
      ghost var stored: bool := *;
      stored := stored || ok;
      if !ok {
        faults := faults + 1;
      }
      Log(event(ok, stored));
    }

    /** The whole run, with its `finally`: however it goes, the connection is closed last,
        and it is only left open if it was never locked. */
    method RunGuardedChange() returns (ok: bool)
      requires Valid() && trace == []
      modifies this
      ensures Valid() && State().pc.Ended? && faults >= old(faults)
      ensures ok ==> EndChange(true) in trace
      ensures ok <==> faults == old(faults) && ReadScope(true, {}) !in trace
      ensures trace[|trace| - 1] == Close || trace == old(trace) + [TryLock(false)]
    {
      var got := Attempt((b: bool) => TryLock(b));
      if !got {
        return false;
      }
      ok := WhileLocked();
      Log(Close);
    }

    method WhileLocked() returns (ok: bool)
      requires Valid() && State().pc.Preparing? && State().migration == migration && ReadScope(true, {}) !in trace
      modifies this
      ensures Valid() && State().pc.Closing? && old(trace) <= trace && faults >= old(faults)
      ensures ok ==> EndChange(true) in trace
      ensures ok <==> faults == old(faults) && ReadScope(true, {}) !in trace
    {
      hide AfterAll, Accepted;
      ok := Attempt((b: bool) => Prepare(b));
      if !ok {
        return;
      }
      if migration {
        ok := Attempt((b: bool) => ReadSchema(b));
        if !ok {
          return;
        }
      }
      ok := SaveBefore();
      if !ok {
        return;
      }
      ok := Change();
    }

    /** The checkpoint and the record, without which the change is not started. */
    method SaveBefore() returns (ok: bool)
      requires Valid() && State().pc.Scoping? && State().migration == migration && ReadScope(true, {}) !in trace
      modifies this
      ensures faults >= old(faults) && (ok <==> faults == old(faults) && ReadScope(true, {}) !in trace)
      ensures Valid() && State().migration == migration
      ensures State().pc == if ok then Ready else Closing
      ensures old(trace) <= trace
    {
      hide AfterAll, Accepted;
      var scope: set<Schema> := *;
      ok := Attempt((b: bool) => ReadScope(b, scope));
      if !ok || scope == {} {
        return false;
      }
      ok := DumpAll(scope);
      if ok {
        ok := SaveBoth();
      }
    }

    method SaveBoth() returns (ok: bool)
      requires Valid() && State().pc.Dumping? && State().dump.Keys == State().scope && ReadScope(true, {}) !in trace
      modifies this
      ensures faults >= old(faults) && (ok <==> faults == old(faults)) && ReadScope(true, {}) !in trace
      ensures Valid() && State().migration == old(State()).migration && old(trace) <= trace
      ensures State().pc == if ok then Ready else Closing
    {
      hide AfterAll, Accepted;
      ok := Save((b: bool, stored: bool) => SaveCheckpoint(b, stored));
      if ok {
        ok := Save((b: bool, stored: bool) => SaveRecord(b, stored));
      }
    }

    method DumpAll(scope: set<Schema>) returns (ok: bool)
      requires Valid() && State().pc.Dumping? && State().scope == scope && State().dump == map[]
      requires ReadScope(true, {}) !in trace
      modifies this
      ensures faults >= old(faults) && (ok <==> faults == old(faults)) && ReadScope(true, {}) !in trace
      ensures Valid() && State().migration == old(State()).migration && old(trace) <= trace
      ensures if ok then State().pc.Dumping? && State().scope == scope && State().dump.Keys == scope
              else State().pc.Closing?
    {
      var todo := scope;
      while todo != {}
        invariant Valid() && State().pc.Dumping? && State().migration == old(State()).migration
        invariant State().scope == scope && todo <= scope && old(trace) <= trace
        invariant faults == old(faults) && ReadScope(true, {}) !in trace
        invariant forall s :: s in State().dump <==> s in scope && s !in todo
        decreases |todo|
      {
        var s :| s in todo;
        var objects: seq<SchemaObject> := *;
        ok := Attempt((b: bool) => Dump(b, s, objects));
        if !ok {
          return;
        }
        todo := todo - {s};
      }
      assert State().dump.Keys == scope;
      ok := true;
    }

    method Change() returns (ok: bool)
      requires Valid() && State().pc.Ready? && State().migration == migration && ReadScope(true, {}) !in trace
      modifies this
      ensures Valid() && State().pc.Closing? && old(trace) <= trace
      ensures faults >= old(faults) && (ok <==> faults == old(faults)) && ReadScope(true, {}) !in trace
      ensures ok ==> EndChange(true) in trace
    {
      hide AfterAll, Accepted;
      Log(Begin);
      var writes: int := *;
      while writes > 0
        invariant Valid() && State().pc.Changing? && State().migration == migration && old(trace) <= trace
        invariant faults == old(faults) && ReadScope(true, {}) !in trace
      {
        ghost var db: Database := *;
        Log(Write(db));
        writes := writes - 1;
      }
      ok := Attempt((b: bool) => EndChange(b));
      if ok {
        ok := RecordSuccess();
      } else {
        RecordFailure();
        assert !ok;
      }
    }

    method RecordFailure()
      requires Valid() && State().pc.RecordingFailure? && ReadScope(true, {}) !in trace
      modifies this
      ensures Valid() && State().pc.Closing? && old(trace) <= trace && faults >= old(faults)
      ensures ReadScope(true, {}) !in trace
    {
      var ok := Save((b: bool, stored: bool) => SaveFailure(b, stored));
      if ok {
        Log(Send);
      }
    }

    method RecordSuccess() returns (ok: bool)
      requires Valid() && State().pc == (if migration then Summarizing else RecordingSuccess)
      requires trace != [] && trace[|trace| - 1] == EndChange(true) && ReadScope(true, {}) !in trace
      modifies this
      ensures faults >= old(faults) && (ok <==> faults == old(faults)) && ReadScope(true, {}) !in trace
      ensures Valid() && State().pc.Closing? && old(trace) <= trace && EndChange(true) in trace
    {
      hide AfterAll, Accepted;
      if migration {
        Log(Summarize);
      }
      ok := Save((b: bool, stored: bool) => SaveSuccess(b, stored));
      if ok {
        Log(Send);
      }
      assert trace[|old(trace)| - 1] == EndChange(true);
    }
  }
}
