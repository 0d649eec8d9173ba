/** Several sync processes in one directory. Each reads the saved state once and writes its
    own copy of all of it back after every change; nothing tells it what another process
    has written in between. */
module SharedState {
  import opened Wrappers
  import opened CodeUnits
  import opened CloudDiff
  import opened CloudQueue
  import opened SyncMachine

  // The saved file, and what each process has in memory.
  datatype Shared = Shared(file: LocalState, processes: map<nat, Machine>)

  datatype Step = Load(p: nat) | Does(p: nat, move: Move)

  /** The moves after which the state is written. */
  predicate Writes(move: Move) {
    move.QueueJob? || move.ReceiveAck? || move.Pull? || (move.Fail? && !IsConflict(move.failure))
  }

  /** Every change of the state is written, and a conflict writes nothing. */
  lemma ChangesAreWritten(m: Machine, move: Move)
    requires MoveCan(m, move)
    ensures MoveAfter(m, move).saved != m.saved ==> Writes(move)
    ensures Writes(move) <==>
              match move
              case QueueJob(_, _, _, _) => true
              case ReceiveAck(_) => true
              case Pull(_, _, _) => true
              case Fail(failure, _, _) => failure != ApiError(409)
              case _ => false
  {
  }

  ghost predicate Enabled(s: Shared, step: Step) {
    && step.p in s.processes
    && match step
       case Load(p) => s.processes[p].phase.Idle?
       case Does(p, move) => MoveCan(s.processes[p], move)
  }

  ghost function After(s: Shared, step: Step): Shared
    requires Enabled(s, step)
  {
    match step
    case Load(p) => s.(processes := s.processes[p := Machine(s.file, Idle)])
    case Does(p, move) =>
      var m := MoveAfter(s.processes[p], move);
      Shared(if Writes(move) then m.saved else s.file, s.processes[p := m])
  }

  /** Whether a move of the machine is about the job. */
  ghost predicate Touches(m: Machine, move: Move, id: nat) {
    if move.QueueJob? then move.id == id else !move.Pull? && Busy(m.phase) && m.phase.todo[0].id == id
  }

  /** After a write, a job that the move is not about is in the file exactly if the writer
      had it in memory: whatever others have written since is gone. */
  lemma WriteForgets(s: Shared, p: nat, move: Move, id: nat)
    requires Enabled(s, Does(p, move)) && Writes(move) && !Touches(s.processes[p], move, id)
    ensures var mine, file := s.processes[p].saved, After(s, Does(p, move)).file;
      && (id in Ids(file.pending) <==> id in Ids(mine.pending))
      && (id in Ids(file.deadletter) <==> id in Ids(mine.deadletter))
  {
    var c := s.processes[p].saved;
    match move
    case QueueJob(other, _, changes, now) => IdsAppend(c.pending, Job(other, c.revision, changes, 0, now));
    case ReceiveAck(_) => WithoutExact(c.pending, s.processes[p].phase.todo[0].id);
    case Fail(f, now, random) =>
      var maxAttempts := if f.NetworkError? then DEFAULT_MAX_ATTEMPTS else 1;
      OthersKept(c, s.processes[p].phase.todo[0].id, maxAttempts, now, random, id);
    case Pull(_, _, _) =>
  }

  lemma OthersKept(c: LocalState, id: nat, maxAttempts: nat, now: int, random: real, other: nat)
    requires other != id
    ensures var t := MarkFailed(c, id, maxAttempts, now, random);
      && (other in Ids(t.pending) <==> other in Ids(c.pending))
      && (other in Ids(t.deadletter) <==> other in Ids(c.deadletter))
  {
    hide Ids, UniqueIds, InBudget, Find, Without, ComputeBackoff;
    IdsWithout(c.pending, id);
    var found, rest := Find(c.pending, id), Without(c.pending, id);
    if found.Some? {
      FindExact(c.pending, id);
      var job := found.value.(attempts := found.value.attempts + 1);
      IdsAppend(c.deadletter, job);
      IdsAppend(rest, job.(nextAttemptAt := now + ComputeBackoff(job.attempts, random)));
    }
  }

  /** So if two processes have read the same file and both queue a job, the one that writes
      first loses its job. */
  lemma QueuedJobIsLost(s: Shared, p: nat, q: nat, first: Move, second: Move)
    requires p in s.processes && q in s.processes && p != q
    requires s.processes[p] == s.processes[q] == Machine(s.file, Idle)
    requires first.QueueJob? && MoveCan(s.processes[p], first) && first.id !in Ids(s.file.pending)
    requires second.QueueJob? && MoveCan(s.processes[q], second) && second.id != first.id
    ensures var one := After(s, Does(p, first));
      && Enabled(s, Does(p, first)) && Enabled(one, Does(q, second))
      && first.id in Ids(one.file.pending) && first.id !in Ids(After(one, Does(q, second)).file.pending)
  {
    var c := s.file;
    assert Enabled(s, Does(p, first));
    var one := After(s, Does(p, first));
    IdsAppend(c.pending, Job(first.id, c.revision, first.changes, 0, first.now));
    hide MoveCan, Ids;
    WriteForgets(one, q, second, first.id);
  }

  /** And a job that one process has had accepted is pending again once the other, which had
      read the file before, writes for whatever other reason. */
  lemma AcceptedJobReturns(s: Shared, p: nat, q: nat, applied: Applied, move: Move)
    requires p in s.processes && q in s.processes && p != q
    requires s.processes[p].phase.Waiting? && Busy(s.processes[p].phase) && Writes(move)
    requires var id := s.processes[p].phase.todo[0].id;
      && id in Ids(s.processes[q].saved.pending) && !Touches(s.processes[q], move, id) && MoveCan(s.processes[q], move)
    ensures var accepted := Does(p, ReceiveAck(applied));
      && Enabled(s, accepted) && Enabled(After(s, accepted), Does(q, move))
      && s.processes[p].phase.todo[0].id !in Ids(After(s, accepted).file.pending)
      && s.processes[p].phase.todo[0].id in Ids(After(After(s, accepted), Does(q, move)).file.pending)
  {
    var id, accepted := s.processes[p].phase.todo[0].id, Does(p, ReceiveAck(applied));
    assert Enabled(s, accepted);
    IdsWithout(s.processes[p].saved.pending, id);
    hide MoveCan, Ids;
    WriteForgets(After(s, accepted), q, move, id);
  }
}
