/** Any number of machines syncing one project through the server. The server is not part of
    the repository: it is assumed to accept a push exactly when the base revision it names is
    the current one, then to apply the changes and move to a greater revision. Everything
    else may go wrong: requests arrive late or more than once, answers are lost, late or
    repeated, reads are stale, machines stop in the middle. */
module SyncProtocol {
  import opened Wrappers
  import opened CodeUnits
  import opened CloudDiff
  import opened CloudQueue
  import opened CloudSync
  import opened SyncMachine

  datatype Server = Server(revision: nat, hashes: Hashes)

  // What was recorded when a job was queued: `target` is the machine's snapshot.
  datatype Queued = Queued(base: nat, changes: seq<Change>, target: Hashes)

  datatype Request = Request(job: nat, baseRevision: nat, changes: seq<Change>, forced: bool)

  datatype Reply = Reply(job: nat, revision: nat, hashes: Hashes)

  // `past` keeps every state the server has had; requests and replies are never removed,
  // so that each can arrive at any later time and any number of times.
  datatype System = System(
    server: Server, machines: map<nat, Machine>,
    past: map<nat, Hashes>, jobs: map<nat, Queued>, requests: set<Request>, replies: set<Reply>)

  // A machine's move, or the server's acceptance of a request.
  datatype Step = Moves(m: nat, move: Move) | Accept(request: Request, revision: nat)

  ghost predicate Init(s: System) {
    && s.server == Server(0, map[]) && s.past == map[0 := map[]]
    && s.jobs == map[] && s.requests == {} && s.replies == {}
    && forall m :: m in s.machines ==> s.machines[m] == Machine(LocalState(0, None, map[], [], []), Idle)
  }

  /** What of a move depends on the rest of the system: a new identifier is fresh, an answer
      is one that the server has given, and what is read is something it once had. */
  ghost predicate MayHappen(s: System, m: Machine, move: Move) {
    match move
    case QueueJob(id, _, _, _) => id !in s.jobs
    case ReadRevision(revision) => revision in s.past
    case ReceiveAck(a) => Busy(m.phase) && Reply(m.phase.todo[0].id, a.revision, a.resourceHashes) in s.replies
    case Pull(revision, _, hashes) => Was(s.past, revision, hashes)
    case _ => true
  }

  ghost predicate Enabled(s: System, step: Step) {
    match step
    case Moves(m, move) => m in s.machines && MoveCan(s.machines[m], move) && MayHappen(s, s.machines[m], move)
    case Accept(request, revision) =>
      request in s.requests && request.baseRevision == s.server.revision && revision > s.server.revision
  }

  ghost function RequestOf(p: Phase): Request
    requires p.Draining? && Busy(p) && p.known.Some?
  {
    Request(p.todo[0].id, if p.force then p.known.value else p.todo[0].baseRevision, p.todo[0].changes, p.force)
  }

  ghost function After(s: System, step: Step): System
    requires Enabled(s, step)
  {
    match step
    case Accept(request, revision) =>
      var hashes := ApplyAll(s.server.hashes, request.changes);
      s.(server := Server(revision, hashes), past := s.past[revision := hashes],
         replies := s.replies + {Reply(request.job, revision, hashes)})
    case Moves(m, move) =>
      var moved := s.(machines := s.machines[m := MoveAfter(s.machines[m], move)]);
      match move
      case QueueJob(id, snapshot, changes, _) =>
        moved.(jobs := s.jobs[id := Queued(s.machines[m].saved.revision, changes, HashesOf(snapshot))])
      case Send => moved.(requests := s.requests + {RequestOf(s.machines[m].phase)})
      case _ => moved
  }

  // ------------------------------------------------------------------ the invariant

  ghost predicate PastInv(s: System) {
    s.server.revision in s.past && s.past[s.server.revision] == s.server.hashes
    && forall r :: r in s.past ==> r <= s.server.revision && ColonKeys(s.past[r].Keys)
  }

  ghost predicate Was(past: map<nat, Hashes>, revision: nat, hashes: Hashes) {
    revision in past && past[revision] == hashes
  }

  ghost predicate JobKnown(jobs: map<nat, Queued>, j: Job) {
    j.id in jobs && jobs[j.id].base == j.baseRevision && jobs[j.id].changes == j.changes
  }

  ghost predicate MachineInv(past: map<nat, Hashes>, jobs: map<nat, Queued>, m: Machine) {
    && Was(past, m.saved.revision, m.saved.resourceHashes)
    && (forall j :: j in m.saved.pending ==> JobKnown(jobs, j))
    && (!m.phase.Idle? ==> forall j :: j in m.phase.todo ==> JobKnown(jobs, j))
  }

  ghost predicate MachinesInv(s: System) {
    forall m :: m in s.machines ==> MachineInv(s.past, s.jobs, s.machines[m])
  }

  ghost predicate JobInv(past: map<nat, Hashes>, q: Queued) {
    q.base in past && IsDelta(past[q.base], q.target, q.changes)
  }

  ghost predicate JobsInv(s: System) {
    forall id :: id in s.jobs ==> JobInv(s.past, s.jobs[id])
  }

  /** A push without force names the revision its job was queued on. */
  ghost predicate RequestInv(jobs: map<nat, Queued>, r: Request) {
    && r.job in jobs && r.changes == jobs[r.job].changes
    && (!r.forced ==> r.baseRevision == jobs[r.job].base)
  }

  ghost predicate MessagesInv(s: System) {
    && (forall r :: r in s.requests ==> RequestInv(s.jobs, r))
    && (forall r :: r in s.replies ==> Was(s.past, r.revision, r.hashes))
  }

  ghost predicate Inv(s: System) {
    PastInv(s) && MachinesInv(s) && JobsInv(s) && MessagesInv(s)
  }

  lemma InitInv(s: System)
    requires Init(s)
    ensures Inv(s)
  {
  }

  /** Nothing that is kept about the past or the queued jobs is ever changed. */
  ghost predicate Extends(s: System, t: System) {
    && (forall r :: r in s.past ==> r in t.past && t.past[r] == s.past[r])
    && (forall id :: id in s.jobs ==> id in t.jobs && t.jobs[id] == s.jobs[id])
    && s.server.revision <= t.server.revision
    && s.requests <= t.requests && s.replies <= t.replies
  }

  lemma StepExtends(s: System, step: Step)
    requires PastInv(s) && Enabled(s, step)
    ensures Extends(s, After(s, step))
  {
    hide IsDelta, MoveAfter, RequestOf;
  }

  lemma KnownJobsStay(s: LocalState, jobs: map<nat, Queued>, id: nat, maxAttempts: nat, now: int, random: real)
    requires forall j :: j in s.pending ==> JobKnown(jobs, j)
    ensures forall j :: j in MarkFailed(s, id, maxAttempts, now, random).pending ==> JobKnown(jobs, j)
    ensures forall j :: j in MarkAcked(s, id).pending ==> JobKnown(jobs, j)
  {
    FindExact(s.pending, id);
    WithoutExact(s.pending, id);
    hide ComputeBackoff, Without, Find;
  }

  lemma MachineStepInv(s: System, step: Step)
    requires Inv(s) && step.Moves? && Enabled(s, step)
    ensures MachineInv(s.past, After(s, step).jobs, MoveAfter(s.machines[step.m], step.move))
  {
    var c, p := s.machines[step.m].saved, s.machines[step.m].phase;
    assert MachineInv(s.past, s.jobs, s.machines[step.m]);
    match step.move
    case StartDrain(_, now) => {
      DueJobsExact(c.pending, now);
      hide IsDelta, DueJobs;
    }
    case ReceiveAck(applied) => {
      KnownJobsStay(ApplyAck(c, applied), s.jobs, p.todo[0].id, 1, 0, 0.0);
      hide IsDelta, MarkFailed, Without;
    }
    case Fail(failure, now, random) => {
      KnownJobsStay(c, s.jobs, p.todo[0].id, if failure.NetworkError? then DEFAULT_MAX_ATTEMPTS else 1, now, random);
      FailureKeepsBaseline(c, p.todo[0].id, if failure.NetworkError? then DEFAULT_MAX_ATTEMPTS else 1, now, random);
      hide IsDelta, MarkFailed, Without;
    }
    case _ => {
      hide IsDelta;
    }
  }

  lemma MachineInvExtends(s: System, t: System, m: Machine)
    requires MachineInv(s.past, s.jobs, m) && Extends(s, t)
    ensures MachineInv(t.past, t.jobs, m)
  {
  }

  lemma AcceptInv(s: System, step: Step)
    requires Inv(s) && step.Accept? && Enabled(s, step)
    ensures Inv(After(s, step))
  {
    ApplyAllColon(s.server.hashes, step.request.changes);
    hide ApplyAll, IsDelta, ColonKeys, MachineInv;
    var t := After(s, step);
    StepExtends(s, step);
    forall m | m in t.machines ensures MachineInv(t.past, t.jobs, t.machines[m]) {
      MachineInvExtends(s, t, s.machines[m]);
    }
  }

  lemma StepInv(s: System, step: Step)
    requires Inv(s) && Enabled(s, step)
    ensures Inv(After(s, step))
  {
    if step.Accept? {
      AcceptInv(s, step);
    } else {
      var t := After(s, step);
      StepExtends(s, step);
      MachineStepInv(s, step);
      RequestsStayOrderly(s, step);
      JobsStayDeltas(s, step);
      MoveFrame(s, step);
      hide After, Enabled, MoveAfter, IsDelta, JobsInv, RequestInv, MachineInv, ColonKeys, Extends;
      forall m | m in t.machines ensures MachineInv(t.past, t.jobs, t.machines[m]) {
        if m != step.m {
          MachineInvExtends(s, t, s.machines[m]);
        }
      }
    }
  }

  lemma MoveFrame(s: System, step: Step)
    requires step.Moves? && Enabled(s, step)
    ensures var t := After(s, step);
      && t.past == s.past && t.server == s.server && t.replies == s.replies
      && t.machines == s.machines[step.m := MoveAfter(s.machines[step.m], step.move)]
  {
    hide MoveCan, MoveAfter, RequestOf, HashesOf;
  }

  lemma RequestsStayOrderly(s: System, step: Step)
    requires Inv(s) && step.Moves? && Enabled(s, step)
    ensures forall r :: r in After(s, step).requests ==> RequestInv(After(s, step).jobs, r)
  {
    assert MachineInv(s.past, s.jobs, s.machines[step.m]);
    hide IsDelta, MoveAfter;
    if step.move.Send? {
      var p := s.machines[step.m].phase;
      assert JobKnown(s.jobs, p.todo[0]);
    }
  }

  /** The changes of a job that is queued are a delta of a past state of the server, whose
      keys all have a colon. */
  lemma QueuedIsDelta(s: System, step: Step)
    requires Inv(s) && step.Moves? && step.move.QueueJob? && Enabled(s, step)
    ensures var c := s.machines[step.m].saved;
      && Was(s.past, c.revision, c.resourceHashes)
      && IsDelta(c.resourceHashes, HashesOf(step.move.snapshot), step.move.changes)
  {
    assert MachineInv(s.past, s.jobs, s.machines[step.m]);
    hide IsDelta, IsDiff, HashesOf, JobInv, RequestInv;
    DiffIsDelta(s.machines[step.m].saved.resourceHashes, step.move.snapshot, step.move.changes);
  }

  lemma JobsStayDeltas(s: System, step: Step)
    requires Inv(s) && step.Moves? && Enabled(s, step)
    ensures JobsInv(After(s, step))
  {
    if step.move.QueueJob? {
      QueuedIsDelta(s, step);
    }
    hide IsDelta, IsDiff, HashesOf, MoveAfter, MachineInv, RequestInv, MoveCan, RequestOf, ColonKeys;
  }

  // --------------------------------------------------------------------- whole runs

  ghost predicate IsRun(run: seq<System>, steps: seq<Step>) {
    && |run| == |steps| + 1 && Init(run[0])
    && forall i :: 0 <= i < |steps| ==> Enabled(run[i], steps[i]) && run[i + 1] == After(run[i], steps[i])
  }

  lemma {:induction false} RunInv(run: seq<System>, steps: seq<Step>, i: nat)
    requires IsRun(run, steps) && i < |run|
    ensures Inv(run[i])
  {
    if i == 0 {
      InitInv(run[0]);
    } else {
      RunInv(run, steps, i - 1);
      StepInv(run[i - 1], steps[i - 1]);
    }
  }

  lemma {:induction false} RunExtends(run: seq<System>, steps: seq<Step>, i: nat, k: nat)
    requires IsRun(run, steps) && i <= k < |run|
    ensures Extends(run[i], run[k])
  {
    hide Inv, Enabled, After, Extends, PastInv, Init;
    if i == k {
      ExtendsItself(run[i]);
    } else {
      RunExtends(run, steps, i, k - 1);
      RunInv(run, steps, k - 1);
      InvPast(run[k - 1]);
      StepExtends(run[k - 1], steps[k - 1]);
      ExtendsTransitive(run[i], run[k - 1], run[k]);
    }
  }

  lemma ExtendsItself(s: System)
    ensures Extends(s, s)
  {
  }

  lemma InvPast(s: System)
    requires Inv(s)
    ensures PastInv(s)
  {
  }

  lemma ExtendsTransitive(s: System, t: System, u: System)
    requires Extends(s, t) && Extends(t, u)
    ensures Extends(s, u)
  {
  }

  // What is kept about the past really happened.

  lemma {:induction false} PastHappened(run: seq<System>, steps: seq<Step>, i: nat, r: nat)
    requires IsRun(run, steps) && i < |run| && r in run[i].past
    ensures exists j :: 0 <= j <= i && run[j].server == Server(r, run[i].past[r])
  {
    hide Inv, MoveAfter, MoveCan;
    if i == 0 {
      assert run[0].server == Server(r, run[0].past[r]);
    } else {
      var step := steps[i - 1];
      assert Enabled(run[i - 1], step) && run[i] == After(run[i - 1], step);
      if step.Accept? && r == step.revision {
        assert run[i].server == Server(r, run[i].past[r]);
      } else {
        assert r in run[i - 1].past && run[i].past[r] == run[i - 1].past[r];
        PastHappened(run, steps, i - 1, r);
      }
    }
  }

  /** Step q put the job into the queue of one of the machines. */
  ghost predicate QueuedAt(run: seq<System>, steps: seq<Step>, q: nat, id: nat)
    requires IsRun(run, steps)
  {
    q < |steps| && steps[q].Moves? && steps[q].move.QueueJob? && steps[q].move.id == id && steps[q].m in run[q].machines
  }

  lemma {:induction false} JobHappened(run: seq<System>, steps: seq<Step>, i: nat, id: nat) returns (q: nat)
    requires IsRun(run, steps) && i < |run| && id in run[i].jobs
    ensures q < i && QueuedAt(run, steps, q, id)
    ensures run[i].jobs[id] == Queued(Baseline(run, steps, q).revision, steps[q].move.changes,
            HashesOf(steps[q].move.snapshot))
  {
    hide Inv, MoveAfter, MoveCan, IsDelta;
    assert i > 0;
    var step := steps[i - 1];
    assert Enabled(run[i - 1], step) && run[i] == After(run[i - 1], step);
    if step.Moves? && step.move.QueueJob? && step.move.id == id {
      q := i - 1;
    } else {
      assert id in run[i - 1].jobs && run[i].jobs[id] == run[i - 1].jobs[id];
      q := JobHappened(run, steps, i - 1, id);
    }
  }

  /** What the machine had saved when it took the step. */
  ghost function Baseline(run: seq<System>, steps: seq<Step>, q: nat): LocalState
    requires IsRun(run, steps) && q < |steps| && steps[q].Moves?
  {
    assert Enabled(run[q], steps[q]);
    run[q].machines[steps[q].m].saved
  }

  lemma OneStatePerRevision(run: seq<System>, steps: seq<Step>, i: nat, k: nat)
    requires IsRun(run, steps) && i < |run| && k < |run| && run[i].server.revision == run[k].server.revision
    ensures run[i].server == run[k].server
  {
    RunInv(run, steps, i);
    RunInv(run, steps, k);
    if i <= k {
      RunExtends(run, steps, i, k);
    } else {
      RunExtends(run, steps, k, i);
    }
  }

  /** In every run, what a machine has saved is a state the server really had, and the only
      one it ever had under that revision. */
  lemma SavedPairIsServerState(run: seq<System>, steps: seq<Step>, i: nat, m: nat)
    requires IsRun(run, steps) && i < |run| && m in run[i].machines
    ensures var c := run[i].machines[m].saved;
      && (exists j :: 0 <= j <= i && run[j].server == Server(c.revision, c.resourceHashes))
      && (forall k :: 0 <= k < |run| && run[k].server.revision == c.revision ==>
            run[k].server.hashes == c.resourceHashes)
  {
    var c := run[i].machines[m].saved;
    RunInv(run, steps, i);
    assert MachineInv(run[i].past, run[i].jobs, run[i].machines[m]);
    PastHappened(run, steps, i, c.revision);
    var j :| 0 <= j <= i && run[j].server == Server(c.revision, c.resourceHashes);
    forall k | 0 <= k < |run| && run[k].server.revision == c.revision
      ensures run[k].server.hashes == c.resourceHashes
    {
      OneStatePerRevision(run, steps, j, k);
    }
  }

  /** An accepted push, forced or not, gives the keys that the machine had changed when it
      queued the job the values they had in its snapshot, and leaves all others alone. */
  lemma AcceptedPushAppliesTheChange(run: seq<System>, steps: seq<Step>, i: nat, k: Text) returns (q: nat)
    requires IsRun(run, steps) && i < |steps| && steps[i].Accept?
    ensures q < i && QueuedAt(run, steps, q, steps[i].request.job)
    ensures var base, target := Baseline(run, steps, q).resourceHashes, HashesOf(steps[q].move.snapshot);
      Get(run[i + 1].server.hashes, k)
      == if Get(base, k) != Get(target, k) then Get(target, k) else Get(run[i].server.hashes, k)
    ensures !steps[i].request.forced ==> run[i].server.revision == Baseline(run, steps, q).revision
  {
    var request := steps[i].request;
    assert Enabled(run[i], steps[i]) && run[i + 1] == After(run[i], steps[i]);
    RunInv(run, steps, i);
    assert RequestInv(run[i].jobs, request);
    q := JobHappened(run, steps, i, request.job);
    assert Enabled(run[q], steps[q]);
    RunInv(run, steps, q);
    hide IsDelta, IsDiff, HashesOf, MoveAfter, MachineInv, RequestInv, MoveCan, ApplyAll, JobInv, Inv, ColonKeys;
    QueuedIsDelta(run[q], steps[q]);
    DeltaAt(Baseline(run, steps, q).resourceHashes, HashesOf(steps[q].move.snapshot), request.changes,
        run[i].server.hashes, k);
  }

  /** A push accepted without force finds the server in the very state the machine had
      saved, and turns it into exactly the machine's snapshot. */
  lemma UnforcedPushGivesTheSnapshot(run: seq<System>, steps: seq<Step>, i: nat) returns (q: nat)
    requires IsRun(run, steps) && i < |steps| && steps[i].Accept? && !steps[i].request.forced
    ensures q < i && QueuedAt(run, steps, q, steps[i].request.job)
    ensures run[i].server == Server(Baseline(run, steps, q).revision, Baseline(run, steps, q).resourceHashes)
    ensures run[i + 1].server.hashes == HashesOf(steps[q].move.snapshot)
  {
    q := AcceptedPushAppliesTheChange(run, steps, i, []);
    assert Enabled(run[q], steps[q]);
    assert run[i + 1] == After(run[i], steps[i]) && Enabled(run[i], steps[i]);
    SavedPairIsServerState(run, steps, q, steps[q].m);
    forall k ensures Get(run[i + 1].server.hashes, k) == Get(HashesOf(steps[q].move.snapshot), k) {
      var p := AcceptedPushAppliesTheChange(run, steps, i, k);
      QueuedOnce(run, steps, p, q, steps[i].request.job);
    }
    SameEverywhere(run[i + 1].server.hashes, HashesOf(steps[q].move.snapshot));
  }

  lemma QueuedOnce(run: seq<System>, steps: seq<Step>, p: nat, q: nat, id: nat)
    requires IsRun(run, steps) && QueuedAt(run, steps, p, id) && QueuedAt(run, steps, q, id)
    ensures p == q
  {
    var i, k := if p < q then p else q, if p < q then q else p;
    if i < k {
      assert Enabled(run[i], steps[i]) && Enabled(run[k], steps[k]) && run[i + 1] == After(run[i], steps[i]);
      assert id in run[i + 1].jobs;
      RunExtends(run, steps, i + 1, k);
    }
  }

  /** Later accepted pushes name greater revisions; so a job is accepted at most once
      without force, however often it is sent and whatever becomes of the answers. */
  lemma AcceptedAtMostOnce(run: seq<System>, steps: seq<Step>, i: nat, k: nat)
    requires IsRun(run, steps) && i < k < |steps| && steps[i].Accept? && steps[k].Accept?
    ensures steps[i].request.baseRevision < steps[k].request.baseRevision
    ensures steps[i].request.job == steps[k].request.job ==> steps[i].request.forced || steps[k].request.forced
  {
    assert Enabled(run[i], steps[i]) && Enabled(run[k], steps[k]) && run[i + 1] == After(run[i], steps[i]);
    RunExtends(run, steps, i + 1, k);
    RunExtends(run, steps, i, k);
    RunInv(run, steps, i);
    RunInv(run, steps, k);
    assert RequestInv(run[i].jobs, steps[i].request) && RequestInv(run[k].jobs, steps[k].request);
  }

  /** Once the server has moved past the revision a job was queued on, the job is never
      accepted again without force. */
  lemma OvertakenNeverLands(run: seq<System>, steps: seq<Step>, q: nat, i: nat, k: nat)
    requires IsRun(run, steps) && q < |steps| && steps[q].Moves? && steps[q].move.QueueJob? && i <= k < |steps|
    requires Baseline(run, steps, q).revision < run[i].server.revision
    requires steps[k].Accept? && steps[k].request.job == steps[q].move.id
    ensures steps[k].request.forced
  {
    RunExtends(run, steps, i, k);
    if !steps[k].request.forced {
      var p := UnforcedPushGivesTheSnapshot(run, steps, k);
      assert Enabled(run[q], steps[q]);
      QueuedOnce(run, steps, p, q, steps[q].move.id);
    }
  }

  // ------------------------------------------------------------ jobs left behind

  ghost predicate Keeps(s: System, m: nat, id: nat) {
    m in s.machines && id in Ids(s.machines[m].saved.pending) + Ids(s.machines[m].saved.deadletter)
  }

  ghost predicate Unanswered(s: System, id: nat) {
    forall r :: r in s.replies ==> r.job != id
  }

  /** A job that has no answer leaves the queue only by a failure, into the dead-letter
      list. */
  lemma LeavesByFailure(s: System, step: Step, m: nat, id: nat)
    requires Enabled(s, step) && Unanswered(s, id) && Keeps(s, m, id)
    ensures Keeps(After(s, step), m, id)
    ensures id in Ids(s.machines[m].saved.pending) && id !in Ids(After(s, step).machines[m].saved.pending) ==>
              step.Moves? && step.m == m && step.move.Fail? && id in Ids(After(s, step).machines[m].saved.deadletter)
    ensures id in Ids(s.machines[m].saved.deadletter) ==> id in Ids(After(s, step).machines[m].saved.deadletter)
  {
    hide ApplyAll, IsDiff, ColonKeys, HashesOf, RequestOf;
    if step.Moves? && step.m == m {
      var c, p := s.machines[m].saved, s.machines[m].phase;
      if step.move.QueueJob? {
        IdsAppend(c.pending, Job(step.move.id, c.revision, step.move.changes, 0, step.move.now));
      } else if step.move.ReceiveAck? {
        assert p.todo[0].id != id;
        IdsWithout(c.pending, p.todo[0].id);
        hide Without, Ids;
      } else if step.move.Fail? && !IsConflict(step.move.failure) {
        FailureKeepsIds(c, p.todo[0].id, step.move.failure, step.move.now, step.move.random, id);
        hide AfterFailure, Ids;
      }
    }
  }

  lemma FailureKeepsIds(c: LocalState, failed: nat, f: Failure, now: int, random: real, id: nat)
    ensures var t := AfterFailure(c, failed, f, now, random);
      && (id in Ids(c.pending) ==> id in Ids(t.pending) + Ids(t.deadletter))
      && (id in Ids(c.deadletter) ==> id in Ids(t.deadletter))
  {
    FindExact(c.pending, failed);
    var found := Find(c.pending, failed);
    if found.Some? {
      IdsMoved(c, found.value, Attempted(found.value), id);
      IdsMoved(c, found.value, Delayed(found.value, now, random), id);
    }
    hide ComputeBackoff, Without, Find, Ids;
  }

  lemma IdsMoved(c: LocalState, job: Job, moved: Job, id: nat)
    requires moved.id == job.id
    ensures var rest := Without(c.pending, job.id);
      && (id in Ids(c.pending) ==> id in Ids(rest + [moved]) && (id in Ids(rest) || id in Ids(c.deadletter + [moved])))
      && (id in Ids(c.deadletter) ==> id in Ids(c.deadletter + [moved]))
  {
    IdsWithout(c.pending, job.id);
    IdsAppend(c.deadletter, moved);
    IdsAppend(Without(c.pending, job.id), moved);
    hide Without, Ids, UniqueIds, InBudget;
  }

  /** The job that machine m queued in step q was overtaken by state i. */
  ghost predicate Overtakes(run: seq<System>, steps: seq<Step>, q: nat, m: nat, id: nat, i: nat)
    requires IsRun(run, steps)
  {
    && QueuedAt(run, steps, q, id) && steps[q].m == m && i < |run|
    && Baseline(run, steps, q).revision < run[i].server.revision
  }

  ghost predicate OnlyUnforced(s: System, id: nat) {
    forall r :: r in s.requests && r.job == id ==> !r.forced
  }

  /** An unforced job that was overtaken before it was accepted is never accepted: it stays
      with its machine, pending until a failure gives it up. */
  lemma {:induction false} OvertakenIsKept(run: seq<System>, steps: seq<Step>, q: nat, m: nat, id: nat, i: nat, k: nat)
    requires IsRun(run, steps) && Overtakes(run, steps, q, m, id, i) && i <= k < |run|
    requires Keeps(run[i], m, id) && Unanswered(run[i], id) && OnlyUnforced(run[k], id)
    ensures Keeps(run[k], m, id) && Unanswered(run[k], id)
  {
    hide *;
    if i < k {
      RunLength(run, steps);
      StepOfRun(run, steps, k, id);
      OvertakenIsKept(run, steps, q, m, id, i, k - 1);
      KeptOneStep(run, steps, q, m, id, i, k);
    }
  }

  lemma RunLength(run: seq<System>, steps: seq<Step>)
    requires IsRun(run, steps)
    ensures |run| == |steps| + 1
  {
  }

  lemma KeptOneStep(run: seq<System>, steps: seq<Step>, q: nat, m: nat, id: nat, i: nat, k: nat)
    requires IsRun(run, steps) && Overtakes(run, steps, q, m, id, i) && i < k < |run|
    requires Keeps(run[k - 1], m, id) && Unanswered(run[k - 1], id) && OnlyUnforced(run[k], id)
    ensures Keeps(run[k], m, id) && Unanswered(run[k], id)
  {
    hide Baseline, After, Enabled, Keeps, Unanswered, OnlyUnforced, Init, MayHappen;
    var step := steps[k - 1];
    StepOfRun(run, steps, k, id);
    if step.Accept? && step.request.job == id {
      OvertakenNeverLands(run, steps, q, i, k - 1);
    }
    hide IsRun, Overtakes;
    LeavesByFailure(run[k - 1], step, m, id);
    StaysUnanswered(run[k - 1], step, id);
  }

  lemma StepOfRun(run: seq<System>, steps: seq<Step>, k: nat, id: nat)
    requires IsRun(run, steps) && 0 < k < |run|
    ensures Enabled(run[k - 1], steps[k - 1]) && run[k] == After(run[k - 1], steps[k - 1])
    ensures OnlyUnforced(run[k], id) ==> OnlyUnforced(run[k - 1], id)
    ensures OnlyUnforced(run[k], id) && steps[k - 1].Accept? && steps[k - 1].request.job == id
            ==> !steps[k - 1].request.forced
  {
    RunExtends(run, steps, k - 1, k);
    assert Enabled(run[k - 1], steps[k - 1]);
    hide After, MoveCan, MayHappen;
  }

  lemma StaysUnanswered(s: System, step: Step, id: nat)
    requires Enabled(s, step) && Unanswered(s, id) && (step.Accept? ==> step.request.job != id)
    ensures Unanswered(After(s, step), id)
  {
    hide MoveCan, MoveAfter, RequestOf, HashesOf, ApplyAll;
  }

  /** The failure can be any answer but a conflict or a network error: while the server's
      revision is being asked for, it gives the job up at once. */
  lemma OvertakenCanBeGivenUp(s: System, m: nat, status: nat, now: int, random: real)
    requires m in s.machines && s.machines[m].phase.Draining? && s.machines[m].phase.known.None?
    requires s.machines[m].phase.todo != [] && s.machines[m].phase.todo[0] in s.machines[m].saved.pending
             && status != 409
    ensures var step, id := Moves(m, Fail(ApiError(status), now, random)), s.machines[m].phase.todo[0].id;
      && Enabled(s, step)
      && id !in Ids(After(s, step).machines[m].saved.pending) && id in Ids(After(s, step).machines[m].saved.deadletter)
  {
    var c, id := s.machines[m].saved, s.machines[m].phase.todo[0].id;
    assert Enabled(s, Moves(m, Fail(ApiError(status), now, random)));
    InIds(c.pending, s.machines[m].phase.todo[0]);
    FindExact(c.pending, id);
    IdsWithout(c.pending, id);
    IdsAppend(c.deadletter, Attempted(Find(c.pending, id).value));
    hide ComputeBackoff, Without, Find, Ids, ApplyAll, IsDiff;
  }

  // ------------------------------------------------------------- idempotency keys

  /** The server honours the idempotency key: it never accepts a job that it has answered.
      (The protocol above does not rely on this.) */
  ghost predicate Deduplicates(run: seq<System>, steps: seq<Step>)
    requires |run| == |steps| + 1
  {
    forall i :: 0 <= i < |steps| && steps[i].Accept? ==> Unanswered(run[i], steps[i].request.job)
  }

  ghost predicate AcceptsOnce(steps: seq<Step>) {
    forall i, k :: 0 <= i < k < |steps| && steps[i].Accept? && steps[k].Accept? ==>
      steps[i].request.job != steps[k].request.job
  }

  lemma {:induction false} ReplyHappened(run: seq<System>, steps: seq<Step>, i: nat, r: Reply) returns (j: nat)
    requires IsRun(run, steps) && i < |run| && r in run[i].replies
    ensures j < i && steps[j].Accept? && steps[j].request.job == r.job
  {
    hide MoveAfter, MoveCan, MayHappen, RequestOf, ApplyAll;
    assert i > 0;
    var step := steps[i - 1];
    assert Enabled(run[i - 1], step) && run[i] == After(run[i - 1], step);
    if r in run[i - 1].replies {
      j := ReplyHappened(run, steps, i - 1, r);
    } else {
      j := i - 1;
    }
  }

  /** Whatever is sent, forced or not, a server that honours the idempotency key accepts no
      job twice. (And one that accepts no job twice honours it in this sense, since there
      are no answers but those to accepted jobs.) */
  lemma DeduplicatedAcceptsOnce(run: seq<System>, steps: seq<Step>)
    requires IsRun(run, steps)
    ensures AcceptsOnce(steps) <==> Deduplicates(run, steps)
  {
    if AcceptsOnce(steps) {
      forall i | 0 <= i < |steps| && steps[i].Accept? ensures Unanswered(run[i], steps[i].request.job) {
        forall r | r in run[i].replies ensures r.job != steps[i].request.job {
          var j := ReplyHappened(run, steps, i, r);
        }
      }
    }
    if Deduplicates(run, steps) {
      forall i, k | 0 <= i < k < |steps| && steps[i].Accept? && steps[k].Accept?
        ensures steps[i].request.job != steps[k].request.job
      {
        AnsweredAfterwards(run, steps, i, k);
      }
    }
  }

  lemma AnsweredAfterwards(run: seq<System>, steps: seq<Step>, i: nat, k: nat)
    requires IsRun(run, steps) && i < k < |run| && steps[i].Accept?
    ensures !Unanswered(run[k], steps[i].request.job)
  {
    assert Enabled(run[i], steps[i]) && run[i + 1] == After(run[i], steps[i]);
    RunExtends(run, steps, i + 1, k);
    var request := steps[i].request;
    var r := Reply(request.job, steps[i].revision, ApplyAll(run[i].server.hashes, request.changes));
    hide ApplyAll, Inv;
    assert r in run[i + 1].replies;
  }

  // ---------------------------------------------------------------------- with force

  ghost predicate CanTake(s: System, steps: seq<Step>)
    decreases steps
  {
    steps == [] || (Enabled(s, steps[0]) && CanTake(After(s, steps[0]), steps[1..]))
  }

  lemma TakeOne(s: System, step: Step, rest: seq<Step>)
    requires Enabled(s, step) && CanTake(After(s, step), rest)
    ensures CanTake(s, [step] + rest)
  {
    hide Enabled, After;
    assert ([step] + rest)[1..] == rest;
  }

  // One forced drain of a queue with one job, up to the sending.
  function SendForced(m: nat, known: nat, now: int, rest: seq<Step>): seq<Step> {
    [Moves(m, StartDrain(true, now))] + ([Moves(m, ReadRevision(known))] + ([Moves(m, Send)] + rest))
  }

  ghost predicate HasOnly(s: System, m: nat, job: Job) {
    && m in s.machines && s.machines[m].phase.Idle? && s.machines[m].saved.pending == [job]
    && s.server.revision in s.past
  }

  ghost predicate AwaitsForced(s: System, m: nat, saved: LocalState, job: Job, server: Server) {
    && m in s.machines && s.machines[m] == Machine(saved, Waiting(true, [job])) && s.server == server
    && Request(job.id, server.revision, job.changes, true) in s.requests
  }

  lemma SendsForced(s: System, m: nat, job: Job, now: int) returns (sent: System)
    requires HasOnly(s, m, job) && job.nextAttemptAt <= now
    ensures AwaitsForced(sent, m, s.machines[m].saved, job, s.server)
    ensures forall rest :: CanTake(sent, rest) ==> CanTake(s, SendForced(m, s.server.revision, now, rest))
  {
    hide CanTake, ApplyAll, IsDiff, HashesOf, ColonKeys;
    var start, read, send := Moves(m, StartDrain(true, now)), Moves(m, ReadRevision(s.server.revision)), Moves(m, Send);
    OneDue(job, now);
    var s1 := After(s, start);
    assert s1.machines[m] == Machine(s.machines[m].saved, Draining(true, None, [job]));
    var s2 := After(s1, read);
    assert s2.machines[m].phase == Draining(true, Some(s.server.revision), [job]);
    sent := After(s2, send);
    assert Enabled(s, start) && Enabled(s1, read) && Enabled(s2, send);
    assert AwaitsForced(sent, m, s.machines[m].saved, job, s.server);
    hide After, Enabled, DueJobs;
    forall rest | CanTake(sent, rest) ensures CanTake(s, SendForced(m, s.server.revision, now, rest)) {
      TakeOne(s2, send, rest);
      TakeOne(s1, read, [send] + rest);
      TakeOne(s, start, [read] + ([send] + rest));
    }
  }

  lemma OneDue(job: Job, now: int)
    requires job.nextAttemptAt <= now
    ensures DueJobs([job], now) == [job]
  {
    assert [job][1..] == [];
  }

  /** The push is accepted and its answer is lost; the machine is idle again. */
  function LostAnswer(m: nat, job: Job, base: nat, first: nat, now: int, random: real, rest: seq<Step>): seq<Step> {
    [Accept(Request(job.id, base, job.changes, true), first)]
    + ([Moves(m, Fail(NetworkError, now, random))] + ([Moves(m, Finish)] + rest))
  }

  lemma LosesAnswer(s: System, m: nat, saved: LocalState, job: Job, first: nat, now: int, random: real)
    returns (t: System)
    requires AwaitsForced(s, m, saved, job, s.server) && saved.pending == [job]
             && job.attempts + 1 < DEFAULT_MAX_ATTEMPTS
    requires s.server.revision < first
    ensures HasOnly(t, m, Delayed(job, now, random)) && t.server.revision == first
    ensures forall rest :: CanTake(t, rest) ==>
              CanTake(s, LostAnswer(m, job, s.server.revision, first, now, random, rest))
  {
    hide CanTake, ApplyAll, IsDiff, HashesOf, ColonKeys, ComputeBackoff;
    var accept := Accept(Request(job.id, s.server.revision, job.changes, true), first);
    var fail, finish := Moves(m, Fail(NetworkError, now, random)), Moves(m, Finish);
    var s1 := After(s, accept);
    FailedAlone(saved, job, now, random);
    hide MarkFailed;
    assert [job][1..] == [];
    var s2 := After(s1, fail);
    assert s2.machines[m] == Machine(saved.(pending := [Delayed(job, now, random)]), Draining(true, None, []));
    t := After(s2, finish);
    assert Enabled(s, accept) && Enabled(s1, fail) && Enabled(s2, finish);
    assert HasOnly(t, m, Delayed(job, now, random));
    hide After, Enabled, Delayed;
    forall rest | CanTake(t, rest) ensures CanTake(s, LostAnswer(m, job, s.server.revision, first, now, random, rest)) {
      TakeOne(s2, finish, rest);
      TakeOne(s1, fail, [finish] + rest);
      TakeOne(s, accept, [fail] + ([finish] + rest));
    }
  }

  lemma FailedAlone(c: LocalState, job: Job, now: int, random: real)
    requires c.pending == [job] && job.attempts + 1 < DEFAULT_MAX_ATTEMPTS
    ensures MarkFailed(c, job.id, DEFAULT_MAX_ATTEMPTS, now, random) == c.(pending := [Delayed(job, now, random)])
  {
    hide ComputeBackoff;
    assert Without([job], job.id) == [];
  }

  /** The whole run: one machine queues a job and sends it with force; the answer is lost
      and the job is sent and accepted again. */
  function ForcedTwice(m: nat, job: Job, snapshot: map<Text, SnapshotEntry>, first: nat, second: nat, now: int,
                       random: real):
    seq<Step>
  {
    var later := Delayed(job, now, random);
    var again := SendForced(m, first, later.nextAttemptAt, [Accept(Request(job.id, first, job.changes, true), second)]);
    [Moves(m, QueueJob(job.id, snapshot, job.changes, now))]
    + SendForced(m, 0, now, LostAnswer(m, job, 0, first, now, random, again))
  }

  /** What the assumed server permits when it does not honour the idempotency key: from the
      very start there is a run, for any snapshot, in which a forced job is accepted, its
      answer is lost, and it is accepted again. */
  lemma ForcedPushCanLandTwice(s: System, m: nat, id: nat, snapshot: map<Text, SnapshotEntry>, changes: seq<Change>,
                               first: nat, second: nat, now: int, random: real)
    requires Init(s) && m in s.machines && changes != []
    requires ColonKeys(snapshot.Keys) && IsDiff(map[], snapshot, changes) && 0 < first < second
    ensures CanTake(s, ForcedTwice(m, Job(id, 0, changes, 0, now), snapshot, first, second, now, random))
  {
    hide ApplyAll, IsDiff, ColonKeys, HashesOf, SendForced, LostAnswer, CanTake, Delayed;
    var job := Job(id, 0, changes, 0, now);
    var queue := Moves(m, QueueJob(id, snapshot, changes, now));
    assert Enabled(s, queue);
    var s1 := After(s, queue);
    assert [] + [job] == [job];
    assert HasOnly(s1, m, job) && s1.server.revision == 0;
    var s2 := SendsForced(s1, m, job, now);
    hide After, Init, HasOnly;
    var s3 := LosesAnswer(s2, m, s1.machines[m].saved, job, first, now, random);
    LandsAgain(s3, m, Delayed(job, now, random), first, second);
    var again := SendForced(m, first, Delayed(job, now, random).nextAttemptAt,
        [Accept(Request(id, first, changes, true), second)]);
    assert Delayed(job, now, random).id == id && Delayed(job, now, random).changes == changes by {
      DelayedKeeps(job, now, random);
    }
    assert CanTake(s3, again);
    var lost := LostAnswer(m, job, 0, first, now, random, again);
    assert CanTake(s2, lost);
    TakeOne(s, queue, SendForced(m, 0, now, lost));
  }

  lemma DelayedKeeps(job: Job, now: int, random: real)
    ensures Delayed(job, now, random).id == job.id && Delayed(job, now, random).changes == job.changes
  {
  }

  lemma LandsAgain(s: System, m: nat, job: Job, first: nat, second: nat)
    requires HasOnly(s, m, job) && s.server.revision == first < second
    ensures CanTake(s, SendForced(m, first, job.nextAttemptAt,
            [Accept(Request(job.id, first, job.changes, true), second)]))
  {
    hide SendForced;
    var s1 := SendsForced(s, m, job, job.nextAttemptAt);
    var accept := Accept(Request(job.id, first, job.changes, true), second);
    assert Enabled(s1, accept);
    assert CanTake(After(s1, accept), []);
    TakeOne(s1, accept, []);
    assert [accept] + [] == [accept];
  }
}
