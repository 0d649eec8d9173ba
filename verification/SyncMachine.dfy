/** One machine of the cloud sync as a state machine: what it has saved, where it stands in a
    drain, and the moves it can make. CloudSync's methods are shown to make only such moves;
    SyncProtocol puts any number of such machines around one server. */
module SyncMachine {
  import opened Wrappers
  import opened CodeUnits
  import opened CloudDiff
  import opened CloudQueue

  datatype Applied = Applied(revision: nat, stateHash: Text, resourceHashes: Hashes)

  datatype Failure = ApiError(status: nat) | NetworkError | OtherError

  function ApplyAck(s: LocalState, a: Applied): LocalState {
    s.(revision := a.revision, stateHash := Some(a.stateHash), resourceHashes := a.resourceHashes)
  }

  /** The state after an attempt that failed otherwise than by a conflict. */
  function AfterFailure(s: LocalState, id: nat, f: Failure, now: int, random: real): LocalState {
    if f.NetworkError? then MarkFailed(s, id, DEFAULT_MAX_ATTEMPTS, now, random)
    else MarkFailed(s, id, 1, now, random)
  }

  predicate IsConflict(f: Failure) {
    f == ApiError(409)
  }

  // `known` is the server's revision as far as the drain has learnt it. While waiting, the
  // first job has been sent and not been answered.
  datatype Phase =
    | Idle
    | Draining(force: bool, known: Option<nat>, todo: seq<Job>)
    | Waiting(force: bool, todo: seq<Job>)

  datatype Machine = Machine(saved: LocalState, phase: Phase)

  datatype Move =
    | QueueJob(id: nat, snapshot: map<Text, SnapshotEntry>, changes: seq<Change>, now: int)
    | StartDrain(force: bool, now: int)
    | ReadRevision(revision: nat)
    | ReadNotModified
    | Overtaken
    | Send
    | ReceiveAck(applied: Applied)
    | Fail(failure: Failure, now: int, random: real)
    | Finish
    | Crash
    | Pull(revision: nat, pulledHash: Option<Text>, hashes: Hashes)

  predicate Busy(p: Phase) {
    !p.Idle? && p.todo != []
  }

  ghost predicate MoveCan(m: Machine, move: Move) {
    var p := m.phase;
    match move
    case QueueJob(_, snapshot, changes, _) =>
      p.Idle? && changes != [] && ColonKeys(snapshot.Keys) && IsDiff(m.saved.resourceHashes, snapshot, changes)
    case StartDrain(_, _) => p.Idle?
    case ReadRevision(_) => p.Draining? && Busy(p) && p.known.None?
    case ReadNotModified => p.Draining? && Busy(p) && p.known.None?
    case Overtaken => p.Draining? && Busy(p) && p.known.Some? && p.known.value != p.todo[0].baseRevision && !p.force
    case Send => p.Draining? && Busy(p) && p.known.Some? && (p.known.value == p.todo[0].baseRevision || p.force)
    case ReceiveAck(_) => p.Waiting? && Busy(p)
    case Fail(_, _, _) => Busy(p) && (p.Waiting? || p.known.None?)
    case Finish => p.Draining? && p.todo == []
    case Crash => true
    case Pull(_, _, _) => p.Idle?
  }

  ghost function MoveAfter(m: Machine, move: Move): Machine
    requires MoveCan(m, move)
  {
    var c, p := m.saved, m.phase;
    match move
    case QueueJob(id, _, changes, now) => Machine(Enqueue(c, Job(id, c.revision, changes, 0, now)), p)
    case StartDrain(force, now) => Machine(c, Draining(force, None, DueJobs(c.pending, now)))
    case ReadRevision(revision) => Machine(c, p.(known := Some(revision)))
    case ReadNotModified => Machine(c, p.(known := Some(c.revision)))
    case Overtaken => Machine(c, Idle)
    case Send => Machine(c, Waiting(p.force, p.todo))
    case ReceiveAck(applied) =>
      Machine(MarkAcked(ApplyAck(c, applied), p.todo[0].id), Draining(p.force, Some(applied.revision), p.todo[1..]))
    case Fail(failure, now, random) =>
      if IsConflict(failure) then Machine(c, Idle)
      else Machine(AfterFailure(c, p.todo[0].id, failure, now, random), Draining(p.force, None, p.todo[1..]))
    case Finish => Machine(c, Idle)
    case Crash => Machine(c, Idle)
    case Pull(revision, pulledHash, hashes) =>
      Machine(c.(revision := revision, stateHash := pulledHash, resourceHashes := hashes), p)
  }

  /** What a machine can do next, phase by phase; it can always crash. */
  lemma NextMoves(m: Machine, move: Move)
    ensures m.phase.Idle? ==>
              (MoveCan(m, move) <==>
               || move.StartDrain? || move.Pull? || move.Crash?
               || (move.QueueJob? && move.changes != [] && ColonKeys(move.snapshot.Keys)
                   && IsDiff(m.saved.resourceHashes, move.snapshot, move.changes)))
    ensures m.phase.Draining? && m.phase.todo == [] ==> (MoveCan(m, move) <==> move.Finish? || move.Crash?)
    ensures m.phase.Draining? && m.phase.todo != [] && m.phase.known.None? ==>
              (MoveCan(m, move) <==> move.ReadRevision? || move.ReadNotModified? || move.Fail? || move.Crash?)
    ensures m.phase.Draining? && m.phase.todo != [] && m.phase.known.Some? ==>
              var goesOn := m.phase.force || m.phase.known.value == m.phase.todo[0].baseRevision;
              MoveCan(m, move) <==> move.Crash? || if goesOn then move.Send? else move.Overtaken?
    ensures m.phase.Waiting? && m.phase.todo != [] ==>
              (MoveCan(m, move) <==> move.ReceiveAck? || move.Fail? || move.Crash?)
  {
    hide IsDiff, ColonKeys;
  }

  /** The moves lead from one state of the machine to another. */
  ghost predicate Leads(a: Machine, moves: seq<Move>, b: Machine)
    decreases moves
  {
    if moves == [] then a == b
    else MoveCan(a, moves[0]) && Leads(MoveAfter(a, moves[0]), moves[1..], b)
  }

  lemma {:induction false} LeadsOn(a: Machine, moves: seq<Move>, b: Machine, move: Move)
    requires Leads(a, moves, b) && MoveCan(b, move)
    ensures Leads(a, moves + [move], MoveAfter(b, move))
    decreases moves
  {
    hide MoveCan, MoveAfter;
    if moves == [] {
      assert ([] + [move])[1..] == [];
    } else {
      LeadsOn(MoveAfter(a, moves[0]), moves[1..], b, move);
      assert (moves + [move])[1..] == moves[1..] + [move];
    }
  }

  lemma {:induction false} LeadsThrough(a: Machine, first: seq<Move>, b: Machine, second: seq<Move>, c: Machine)
    requires Leads(a, first, b) && Leads(b, second, c)
    ensures Leads(a, first + second, c)
    decreases first
  {
    hide MoveCan, MoveAfter;
    if first == [] {
      assert [] + second == second;
    } else {
      LeadsThrough(MoveAfter(a, first[0]), first[1..], b, second, c);
      assert (first + second)[1..] == first[1..] + second;
    }
  }

  // What the server answers: to a read, or to a push.
  datatype GetOutcome =
    | GotState(revision: nat, stateHash: Option<Text>, resourceHashes: Hashes)
    | NotModified
    | GetFailed(failure: Failure)

  datatype PushOutcome = Pushed(applied: Applied) | PushFailed(failure: Failure)

  datatype Answer = ToRead(read: GetOutcome) | ToPush(push: PushOutcome)

  predicate IsSilent(move: Move) {
    !move.ReadRevision? && !move.ReadNotModified? && !move.ReceiveAck? && !move.Fail?
  }

  /** The move that an answer leads to. */
  predicate LeadsTo(answer: Answer, move: Move) {
    match move
    case ReadRevision(revision) => answer.ToRead? && answer.read.GotState? && answer.read.revision == revision
    case ReadNotModified => answer == ToRead(NotModified)
    case ReceiveAck(applied) => answer == ToPush(Pushed(applied))
    case Fail(failure, _, _) => answer == ToRead(GetFailed(failure)) || answer == ToPush(PushFailed(failure))
    case _ => false
  }

  /** The moves are those that the answers led to, one by one, without an interruption. */
  ghost predicate Explained(moves: seq<Move>, heard: seq<Answer>)
    decreases moves
  {
    if moves == [] then heard == []
    else
      var init, last := moves[..|moves| - 1], moves[|moves| - 1];
      && !last.Crash?
      && if IsSilent(last) then Explained(init, heard)
         else heard != [] && LeadsTo(heard[|heard| - 1], last) && Explained(init, heard[..|heard| - 1])
  }

  /** Answers that come with one more move. */
  predicate Hears(after: seq<Answer>, move: Move, later: seq<Answer>) {
    if IsSilent(move) then later == after
    else |later| == |after| + 1 && later[..|after|] == after && LeadsTo(later[|after|], move)
  }

  lemma ExplainedOn(moves: seq<Move>, heard: seq<Answer>, move: Move, more: seq<Answer>)
    requires Explained(moves, heard) && !move.Crash? && Hears(heard, move, more)
    ensures Explained(moves + [move], more)
  {
    hide IsSilent, LeadsTo;
    assert (moves + [move])[..|moves|] == moves;
  }

  lemma {:induction false} ExplainedThrough(first: seq<Move>, second: seq<Move>, a: seq<Answer>, b: seq<Answer>)
    requires Explained(first, a) && Explained(second, b)
    ensures Explained(first + second, a + b)
    decreases second
  {
    hide IsSilent, LeadsTo;
    if second == [] {
      assert first + second == first && a + b == a;
    } else {
      var init, last := second[..|second| - 1], second[|second| - 1];
      assert first + second == (first + init) + [last];
      if IsSilent(last) {
        ExplainedThrough(first, init, a, b);
        ExplainedOn(first + init, a + b, last, a + b);
      } else {
        var earlier := b[..|b| - 1];
        ExplainedThrough(first, init, a, earlier);
        assert (a + b)[..|a + earlier|] == a + earlier;
        ExplainedOn(first + init, a + earlier, last, a + b);
      }
    }
  }

  /** The moves lead from one state to another, and what was heard between `before` and
      `after` led to them. */
  ghost predicate Follows(a: Machine, moves: seq<Move>, b: Machine, before: seq<Answer>, after: seq<Answer>) {
    Leads(a, moves, b) && before <= after && Explained(moves, after[|before|..])
  }

  lemma FollowsNothing(a: Machine, before: seq<Answer>)
    ensures Follows(a, [], a, before, before)
  {
  }

  lemma FollowsOn(a: Machine, moves: seq<Move>, b: Machine, before: seq<Answer>, after: seq<Answer>,
                  move: Move, later: seq<Answer>)
    requires Follows(a, moves, b, before, after) && MoveCan(b, move) && !move.Crash? && Hears(after, move, later)
    ensures Follows(a, moves + [move], MoveAfter(b, move), before, later)
  {
    hide MoveCan, MoveAfter, IsSilent, LeadsTo, Leads, Explained;
    LeadsOn(a, moves, b, move);
    assert later[|before|..][..|after| - |before|] == after[|before|..];
    ExplainedOn(moves, after[|before|..], move, later[|before|..]);
  }

  lemma FollowsOne(a: Machine, before: seq<Answer>, move: Move, later: seq<Answer>)
    requires MoveCan(a, move) && !move.Crash? && Hears(before, move, later)
    ensures Follows(a, [move], MoveAfter(a, move), before, later)
  {
    hide MoveCan, MoveAfter, IsSilent, LeadsTo, Follows;
    FollowsNothing(a, before);
    FollowsOn(a, [], a, before, before, move, later);
    assert [] + [move] == [move];
  }

  lemma FollowsThrough(a: Machine, first: seq<Move>, b: Machine, second: seq<Move>, c: Machine,
                       before: seq<Answer>, between: seq<Answer>, after: seq<Answer>)
    requires Follows(a, first, b, before, between) && Follows(b, second, c, between, after)
    ensures Follows(a, first + second, c, before, after)
  {
    hide Leads, Explained;
    LeadsThrough(a, first, b, second, c);
    ExplainedThrough(first, second, between[|before|..], after[|between|..]);
    assert between[|before|..] + after[|between|..] == after[|before|..];
  }
}
