/** One machine's side of the cloud sync: queueing the difference to the last synced state,
    draining the queue against the server, and pulling. The server's answers are arbitrary
    here; SyncProtocol says what follows when the server checks revisions. Every method
    goes through moves of SyncMachine only. */
module CloudSync {
  import opened Wrappers
  import opened CodeUnits
  import opened CloudDiff
  import opened CloudQueue
  import opened SyncMachine

  // A push that was sent: the job, the revision it named and the one last known.
  datatype Push = Push(job: Job, baseRevision: nat, known: nat)

  datatype DrainResult = DrainResult(
    attempted: nat, acked: nat, failed: nat, deadlettered: nat, conflict: bool, remoteRevision: Option<nat>)

  datatype AttemptOutcome = Conflicting | Acked | Failed | Dead

  /** What the last move of an attempt makes of it. */
  function OutcomeOf(last: Move): AttemptOutcome {
    match last
    case ReceiveAck(_) => Acked
    case Fail(f, _, _) => if IsConflict(f) then Conflicting else if f.NetworkError? then Failed else Dead
    case _ => Conflicting
  }

  predicate EndsAttempt(move: Move) {
    move.ReceiveAck? || move.Fail? || move.Overtaken?
  }

  /** How many attempts on the way ended like this. */
  ghost function CountOf(moves: seq<Move>, outcome: AttemptOutcome): nat {
    if moves == [] then 0
    else
      var last := moves[|moves| - 1];
      CountOf(moves[..|moves| - 1], outcome) + if EndsAttempt(last) && OutcomeOf(last) == outcome then 1 else 0
  }

  ghost predicate NoneQueued(moves: seq<Move>) {
    forall i :: 0 <= i < |moves| ==> !moves[i].QueueJob?
  }

  /** The moves of one attempt: its last one ends it. */
  ghost predicate IsAttempt(moves: seq<Move>, outcome: AttemptOutcome) {
    && moves != [] && EndsAttempt(moves[|moves| - 1]) && OutcomeOf(moves[|moves| - 1]) == outcome
    && NoneQueued(moves) && forall i :: 0 <= i < |moves| - 1 ==> !EndsAttempt(moves[i])
  }

  lemma CountOn(moves: seq<Move>, move: Move, o: AttemptOutcome)
    ensures CountOf(moves + [move], o) == CountOf(moves, o) + if EndsAttempt(move) && OutcomeOf(move) == o then 1 else 0
  {
    hide EndsAttempt, OutcomeOf;
    assert (moves + [move])[..|moves|] == moves;
  }

  lemma {:induction false} CountThrough(first: seq<Move>, second: seq<Move>, o: AttemptOutcome)
    requires forall i :: 0 <= i < |second| ==> !EndsAttempt(second[i])
    ensures CountOf(first + second, o) == CountOf(first, o)
  {
    hide EndsAttempt, OutcomeOf;
    if second == [] {
      assert first + second == first;
    } else {
      var init, last := second[..|second| - 1], second[|second| - 1];
      CountThrough(first, init, o);
      CountOn(first + init, last, o);
      assert first + init + [last] == first + second;
    }
  }

  lemma CountAttempt(first: seq<Move>, more: seq<Move>, outcome: AttemptOutcome, o: AttemptOutcome)
    requires IsAttempt(more, outcome)
    ensures CountOf(first + more, o) == CountOf(first, o) + if o == outcome then 1 else 0
  {
    hide EndsAttempt, OutcomeOf, CountOf;
    var init, last := more[..|more| - 1], more[|more| - 1];
    CountThrough(first, init, o);
    CountOn(first + init, last, o);
    assert first + init + [last] == first + more;
  }

  ghost function Ended(moves: seq<Move>): nat {
    if moves == [] then 0 else Ended(moves[..|moves| - 1]) + if EndsAttempt(moves[|moves| - 1]) then 1 else 0
  }

  /** Move k is a network error at a job that has seven attempts behind it: the one kind of
      failure that the code counts as failed although it gives the job up. The n-th attempt
      on the way is at the n-th due job. */
  ghost predicate IsLastTry(moves: seq<Move>, due: seq<Job>, k: nat)
    requires k < |moves|
  {
    && moves[k].Fail? && moves[k].failure.NetworkError?
    && Ended(moves[..k]) < |due| && due[Ended(moves[..k])].attempts == DEFAULT_MAX_ATTEMPTS - 1
  }

  ghost function LastTries(moves: seq<Move>, due: seq<Job>): nat {
    if moves == [] then 0
    else
      LastTries(moves[..|moves| - 1], due) + if IsLastTry(moves, due, |moves| - 1) then 1 else 0
  }

  /** There are none exactly if no network error hits a job at its last attempt; so in
      particular if no due job has seven attempts behind it. */
  lemma {:induction false} LastTriesIff(moves: seq<Move>, due: seq<Job>)
    ensures LastTries(moves, due) == 0 <==> forall k :: 0 <= k < |moves| ==> !IsLastTry(moves, due, k)
    ensures (forall n :: 0 <= n < |due| ==> due[n].attempts < DEFAULT_MAX_ATTEMPTS - 1) ==> LastTries(moves, due) == 0
    decreases |moves|
  {
    hide Ended;
    if moves != [] {
      var init := moves[..|moves| - 1];
      LastTriesIff(init, due);
      forall k | 0 <= k < |init| ensures IsLastTry(init, due, k) == IsLastTry(moves, due, k) {
        assert init[..k] == moves[..k];
      }
    }
  }

  lemma LastTriesOn(moves: seq<Move>, move: Move, due: seq<Job>)
    ensures Ended(moves + [move]) == Ended(moves) + if EndsAttempt(move) then 1 else 0
    ensures LastTries(moves + [move], due)
            == LastTries(moves, due)
               + if EndsAttempt(move) && OutcomeOf(move).Failed?
                    && Ended(moves) < |due| && due[Ended(moves)].attempts == DEFAULT_MAX_ATTEMPTS - 1 then 1 else 0
  {
    assert (moves + [move])[..|moves|] == moves;
    assert move.Fail? && move.failure.NetworkError? <==> EndsAttempt(move) && OutcomeOf(move).Failed?;
  }

  lemma {:induction false} LastTriesThrough(first: seq<Move>, second: seq<Move>, due: seq<Job>)
    requires forall i :: 0 <= i < |second| ==> !EndsAttempt(second[i])
    ensures Ended(first + second) == Ended(first) && LastTries(first + second, due) == LastTries(first, due)
    decreases |second|
  {
    hide EndsAttempt, OutcomeOf, Ended, LastTries;
    if second == [] {
      assert first + second == first;
    } else {
      var init, last := second[..|second| - 1], second[|second| - 1];
      LastTriesThrough(first, init, due);
      LastTriesOn(first + init, last, due);
      assert first + init + [last] == first + second;
    }
  }

  lemma LastTriesOfAttempt(first: seq<Move>, more: seq<Move>, outcome: AttemptOutcome, due: seq<Job>)
    requires IsAttempt(more, outcome) && Ended(first) < |due|
    ensures Ended(first + more) == Ended(first) + 1
    ensures LastTries(first + more, due) == LastTries(first, due) + GivenUpUncounted(outcome, due[Ended(first)])
  {
    hide EndsAttempt, OutcomeOf, Ended, LastTries;
    var init, last := more[..|more| - 1], more[|more| - 1];
    LastTriesThrough(first, init, due);
    LastTriesOn(first + init, last, due);
    assert first + init + [last] == first + more;
  }

  /** One, if the attempt gave the job up and was counted as failed. */
  ghost function GivenUpUncounted(outcome: AttemptOutcome, job: Job): nat {
    if outcome.Failed? && job.attempts == DEFAULT_MAX_ATTEMPTS - 1 then 1 else 0
  }

  lemma UncountedIff(job: Job)
    ensures GivenUpUncounted(Failed, job) == if job.attempts == DEFAULT_MAX_ATTEMPTS - 1 then 1 else 0
    ensures GivenUpUncounted(Dead, job) == 0
  {
  }

  lemma AtMostOne(outcome: AttemptOutcome, job: Job)
    ensures GivenUpUncounted(outcome, job) <= if outcome.Failed? then 1 else 0
  {
  }

  lemma OneAttempt(moves: seq<Move>, last: Move, outcome: AttemptOutcome)
    requires EndsAttempt(last) && OutcomeOf(last) == outcome && NoneQueued(moves)
    requires NoEnd(moves)
    ensures IsAttempt(moves + [last], outcome)
  {
    hide OutcomeOf;
  }

  lemma AttemptEnds(moves: seq<Move>, outcome: AttemptOutcome)
    requires IsAttempt(moves, outcome)
    ensures moves != [] && moves[|moves| - 1] != Finish
  {
  }

  lemma AttemptQueuesNone(moves: seq<Move>, more: seq<Move>, outcome: AttemptOutcome)
    requires NoneQueued(moves) && IsAttempt(more, outcome)
    ensures NoneQueued(moves + more)
  {
    hide EndsAttempt, OutcomeOf;
  }

  /** The counters of a result are those of the way. */
  ghost predicate Counts(r: DrainResult, moves: seq<Move>) {
    r.acked == CountOf(moves, Acked) && r.failed == CountOf(moves, Failed) && r.deadlettered == CountOf(moves, Dead)
  }

  function Counted(r: DrainResult, outcome: AttemptOutcome): DrainResult {
    match outcome
    case Conflicting => r.(conflict := true)
    case Acked => r.(acked := r.acked + 1)
    case Failed => r.(failed := r.failed + 1)
    case Dead => r.(deadlettered := r.deadlettered + 1)
  }

  lemma CountsNext(r: DrainResult, moves: seq<Move>, more: seq<Move>, outcome: AttemptOutcome)
    requires Counts(r, moves) && IsAttempt(more, outcome)
    ensures Counts(Counted(r, outcome), moves + more)
  {
    hide CountOf, IsAttempt;
    CountAttempt(moves, more, outcome, Acked);
    CountAttempt(moves, more, outcome, Failed);
    CountAttempt(moves, more, outcome, Dead);
  }

  lemma CountsSilent(r: DrainResult, moves: seq<Move>, move: Move)
    requires Counts(r, moves) && !EndsAttempt(move)
    ensures Counts(r, moves + [move])
  {
    hide CountOf, EndsAttempt;
    CountOn(moves, move, Acked);
    CountOn(moves, move, Failed);
    CountOn(moves, move, Dead);
  }

  lemma CountsNothing(move: Move)
    requires !EndsAttempt(move)
    ensures Counts(DrainResult(0, 0, 0, 0, false, None), [move])
  {
    assert [move][..0] == [];
  }

  ghost predicate Adds(r: DrainResult) {
    r.attempted == r.acked + r.failed + r.deadlettered + (if r.conflict then 1 else 0)
  }

  /** Pending, dead-letter and acknowledged jobs are apart and make up all queued jobs. */
  ghost predicate Accounted(s: LocalState, queued: set<nat>, acked: set<nat>) {
    && Ids(s.pending) + Ids(s.deadletter) + acked == queued
    && acked !! Ids(s.pending) + Ids(s.deadletter)
  }

  /** Every queued job is in exactly one of pending, dead-letter and acknowledged, and the
      attempts settled so far and those still possible are within eight per job. */
  ghost predicate Books(s: LocalState, queued: set<nat>, acked: set<nat>, settled: nat) {
    && QueueValid(s) && Accounted(s, queued, acked)
    && settled + Work(s.pending) <= DEFAULT_MAX_ATTEMPTS * |queued|
  }

  lemma MoveToAcked(p: set<nat>, d: set<nat>, a: set<nat>, q: set<nat>, x: nat)
    requires p + d + a == q && a !! p + d && p !! d && x in p
    ensures (p - {x}) + d + (a + {x}) == q && a + {x} !! (p - {x}) + d && x !in a
  {
  }

  lemma MoveToDead(p: set<nat>, d: set<nat>, a: set<nat>, q: set<nat>, x: nat)
    requires p + d + a == q && a !! p + d && x in p
    ensures (p - {x}) + (d + {x}) + a == q && a !! (p - {x}) + (d + {x})
  {
  }

  /** So all attempts together, over any number of drains, are at most eight per job. */
  lemma AttemptsAreBounded(s: LocalState, queued: set<nat>, acked: set<nat>, settled: nat)
    requires Books(s, queued, acked, settled)
    ensures settled + |s.pending| <= 8 * |queued|
  {
    WorkNonnegative(s.pending);
  }

  lemma BooksAcked(s: LocalState, queued: set<nat>, acked: set<nat>, settled: nat, job: Job, a: Applied)
    requires Books(s, queued, acked, settled) && job in s.pending
    ensures var t := MarkAcked(ApplyAck(s, a), job.id);
      && Books(t, queued, acked + {job.id}, settled + 1) && job.id !in acked
      && t.deadletter == s.deadletter && Settles(s, t, job)
  {
    assert job.id in Ids(s.pending);
    hide Work, MarkAcked, Ids, UniqueIds, InBudget;
    var before := ApplyAck(s, a);
    AckedLeaves(before, job);
    AckKeepsBaseline(before, job.id);
    MoveToAcked(Ids(s.pending), Ids(s.deadletter), acked, queued, job.id);
  }

  lemma BooksFailed(s: LocalState, queued: set<nat>, acked: set<nat>, settled: nat, job: Job,
                    f: Failure, now: int, random: real)
    requires Books(s, queued, acked, settled) && job in s.pending && 0.0 <= random < 1.0
    ensures var t := AfterFailure(s, job.id, f, now, random);
      && Books(t, queued, acked, settled + 1) && SameBaseline(s, t)
      && Settles(s, t, job)
      && t.deadletter == if f.NetworkError? && job.attempts + 1 < DEFAULT_MAX_ATTEMPTS then s.deadletter
                         else s.deadletter + [Attempted(job)]
  {
    hide Books, MarkFailed, SameBaseline, Ids;
    var maxAttempts := if f.NetworkError? then DEFAULT_MAX_ATTEMPTS else 1;
    FailureKeepsBaseline(s, job.id, maxAttempts, now, random);
    JobInBudget(s, queued, acked, settled, job);
    if job.attempts + 1 >= maxAttempts {
      BooksGivenUp(s, queued, acked, settled, job, maxAttempts, now, random);
    } else {
      BooksPostponed(s, queued, acked, settled, job, maxAttempts, now, random);
    }
  }

  lemma JobInBudget(s: LocalState, queued: set<nat>, acked: set<nat>, settled: nat, job: Job)
    requires Books(s, queued, acked, settled) && job in s.pending
    ensures job.attempts < DEFAULT_MAX_ATTEMPTS && job.id in Ids(s.pending)
  {
  }

  lemma BooksGivenUp(s: LocalState, queued: set<nat>, acked: set<nat>, settled: nat, job: Job,
                     maxAttempts: nat, now: int, random: real)
    requires Books(s, queued, acked, settled) && job in s.pending && job.attempts + 1 >= maxAttempts
    ensures var t := MarkFailed(s, job.id, maxAttempts, now, random);
      && Books(t, queued, acked, settled + 1) && Settles(s, t, job)
      && t.deadletter == s.deadletter + [Attempted(job)]
  {
    JobInBudget(s, queued, acked, settled, job);
    FailureKeepsBaseline(s, job.id, maxAttempts, now, random);
    hide Work, Ids, UniqueIds, InBudget, MarkFailed;
    FailedDies(s, job, maxAttempts, now, random);
    MoveToDead(Ids(s.pending), Ids(s.deadletter), acked, queued, job.id);
  }

  lemma BooksPostponed(s: LocalState, queued: set<nat>, acked: set<nat>, settled: nat, job: Job,
                       maxAttempts: nat, now: int, random: real)
    requires Books(s, queued, acked, settled) && job in s.pending && 0.0 <= random < 1.0
    requires job.attempts + 1 < maxAttempts <= DEFAULT_MAX_ATTEMPTS
    ensures var t := MarkFailed(s, job.id, maxAttempts, now, random);
      && Books(t, queued, acked, settled + 1) && Settles(s, t, job)
      && t.deadletter == s.deadletter
  {
    FailureKeepsBaseline(s, job.id, maxAttempts, now, random);
    hide Work, Ids, UniqueIds, InBudget, MarkFailed, Without;
    FailedStays(s, job, maxAttempts, now, random);
  }

  lemma BooksEnqueued(s: LocalState, queued: set<nat>, acked: set<nat>, settled: nat, job: Job)
    requires Books(s, queued, acked, settled) && job.id !in queued && job.attempts == 0
    ensures Books(Enqueue(s, job), queued + {job.id}, acked, settled)
  {
    hide Work, Ids, UniqueIds, InBudget;
    WorkAppend(s.pending, job);
    IdsAppend(s.pending, job);
  }

  ghost predicate SameBaseline(a: LocalState, b: LocalState) {
    a.revision == b.revision && a.stateHash == b.stateHash && a.resourceHashes == b.resourceHashes
  }

  /** A push names the revision last known, which without force is the one the job was
      queued on. */
  ghost predicate PushIsOrderly(p: Push, force: bool) {
    p.baseRevision == p.known && (!force ==> p.baseRevision == p.job.baseRevision)
  }

  ghost function JobsOf(pushes: seq<Push>): seq<Job> {
    if pushes == [] then [] else JobsOf(pushes[..|pushes| - 1]) + [pushes[|pushes| - 1].job]
  }

  lemma JobsOfNext(pushes: seq<Push>, p: Push)
    ensures JobsOf(pushes + [p]) == JobsOf(pushes) + [p.job]
  {
    assert (pushes + [p])[..|pushes|] == pushes;
  }

  /** The pushes sent so far are for some of the first n due jobs, in their order. */
  ghost predicate SentFrom(sent: seq<Push>, due: seq<Job>, n: nat) {
    n <= |due| && Subsequence(JobsOf(sent), due[..n])
  }

  /** The jobs whose turn is still to come are all pending. */
  ghost predicate AwaitTurn(due: seq<Job>, i: nat, pending: seq<Job>) {
    UniqueIds(due) && forall k :: i <= k < |due| ==> due[k] in pending
  }

  lemma AllAwaitTurn(due: seq<Job>, pending: seq<Job>)
    requires UniqueIds(due) && forall k :: 0 <= k < |due| ==> due[k] in pending
    ensures AwaitTurn(due, 0, pending)
  {
  }

  lemma NextAwaits(due: seq<Job>, i: nat, pending: seq<Job>)
    requires AwaitTurn(due, i, pending) && i < |due|
    ensures due[i] in pending
  {
  }

  lemma NothingAdds()
    ensures Adds(DrainResult(0, 0, 0, 0, false, None))
  {
  }

  lemma StaysBaseline(a: LocalState, b: LocalState, c: LocalState)
    ensures SameBaseline(a, b) && SameBaseline(b, c) ==> SameBaseline(a, c)
    ensures SameBaseline(a, a)
  {
  }

  lemma TurnTaken(due: seq<Job>, i: nat, before: seq<Job>, after: seq<Job>)
    requires AwaitTurn(due, i, before) && i < |due| && KeepsOthers(before, after, due[i])
    ensures AwaitTurn(due, i + 1, after)
  {
  }

  /** Whether the job joined the acknowledged ones. */
  ghost predicate Joins(before: set<nat>, after: set<nat>, id: nat, joined: bool) {
    if joined then id !in before && after == before + {id} else after == before
  }

  lemma JoinsCount(before: set<nat>, after: set<nat>, id: nat, joined: bool)
    requires Joins(before, after, id, joined)
    ensures before <= after && |after| == |before| + if joined then 1 else 0
  {
  }

  /** Whether a push for the job was sent, naming the revision that is then reported. */
  ghost predicate Sends(before: seq<Push>, after: seq<Push>, job: Job, force: bool, reported: Option<nat>, sent: bool) {
    if sent then
      && |after| == |before| + 1 && after[..|before|] == before
      && after[|before|].job == job && PushIsOrderly(after[|before|], force) && reported == Some(after[|before|].known)
    else after == before
  }

  lemma NoPush(pushes: seq<Push>, job: Job, force: bool)
    ensures forall reported :: Sends(pushes, pushes, job, force, reported, false)
  {
  }

  lemma NothingSent(due: seq<Job>)
    ensures SentFrom([], due, 0)
  {
  }

  lemma SentNext(sent: seq<Push>, due: seq<Job>, n: nat, p: Push)
    requires SentFrom(sent, due, n) && n < |due|
    ensures SentFrom(sent, due, n + 1)
    ensures p.job == due[n] ==> SentFrom(sent + [p], due, n + 1)
  {
    assert due[..n] + [due[n]] == due[..n + 1];
    SubsequenceNext(JobsOf(sent), due[..n], due[n]);
    JobsOfNext(sent, p);
  }

  lemma SentAll(sent: seq<Push>, due: seq<Job>, n: nat)
    requires SentFrom(sent, due, n)
    ensures Subsequence(JobsOf(sent), due)
  {
    SubsequenceLonger(JobsOf(sent), due[..n], due[n..]);
    assert due[..n] + due[n..] == due;
  }

  ghost function LastKnown(sent: seq<Push>): Option<nat> {
    if sent == [] then None else Some(sent[|sent| - 1].known)
  }

  /** What has been sent since `base`, when the first n due jobs have had their turn. */
  ghost predicate SentSoFar(base: seq<Push>, pushes: seq<Push>, due: seq<Job>, n: nat, force: bool,
                            remote: Option<nat>)
  {
    && base <= pushes && SentOrderly(base, pushes, force)
    && SentFrom(pushes[|base|..], due, n) && remote == LastKnown(pushes[|base|..])
  }

  ghost predicate SentOrderly(base: seq<Push>, pushes: seq<Push>, force: bool) {
    forall k :: |base| <= k < |pushes| ==> PushIsOrderly(pushes[k], force)
  }

  lemma SentNothing(base: seq<Push>, due: seq<Job>, force: bool)
    ensures SentSoFar(base, base, due, 0, force, None)
  {
    NothingSent(due);
    assert base[|base|..] == [];
  }

  lemma SentRound(base: seq<Push>, before: seq<Push>, after: seq<Push>, due: seq<Job>, n: nat, force: bool,
                  remote: Option<nat>, reported: Option<nat>, sent: bool)
    requires SentSoFar(base, before, due, n, force, remote) && n < |due|
    requires Sends(before, after, due[n], force, reported, sent)
    ensures SentSoFar(base, after, due, n + 1, force, if sent then reported else remote)
  {
    hide SentFrom, PushIsOrderly;
    var added := before[|base|..];
    SentNext(added, due, n, if sent then after[|before|] else Push(due[n], 0, 0));
    if sent {
      assert after == before + [after[|before|]];
      assert after[|base|..] == added + [after[|before|]];
    }
  }

  lemma SentInTheEnd(base: seq<Push>, pushes: seq<Push>, due: seq<Job>, n: nat, force: bool, remote: Option<nat>)
    requires SentSoFar(base, pushes, due, n, force, remote)
    ensures base <= pushes && SentOrderly(base, pushes, force) && Subsequence(JobsOf(pushes[|base|..]), due)
    ensures remote == LastKnown(pushes[|base|..])
  {
    SentAll(pushes[|base|..], due, n);
  }

  /** The state after the failure of one job, other than by a conflict; `dead` says whether
      it failed otherwise than by a network error. */
  ghost predicate FailedWith(s: LocalState, t: LocalState, id: nat, now: int, dead: bool) {
    exists f: Failure, random: real ::
      !IsConflict(f) && (dead <==> !f.NetworkError?) && 0.0 <= random < 1.0 && t == AfterFailure(s, id, f, now, random)
  }

  /** The state after the acknowledgement of one job with some answer of the server. */
  ghost predicate AckedWith(s: LocalState, t: LocalState, id: nat) {
    exists a: Applied :: t == MarkAcked(ApplyAck(s, a), id) && t.revision == a.revision
  }

  lemma AckKeepsBaseline(s: LocalState, id: nat)
    ensures SameBaseline(s, MarkAcked(s, id))
  {
  }

  lemma FailureKeepsBaseline(s: LocalState, id: nat, maxAttempts: nat, now: int, random: real)
    ensures SameBaseline(s, MarkFailed(s, id, maxAttempts, now, random))
  {
  }

  /** Queueing is a move, and a silent one. */
  lemma QueueMove(c: LocalState, id: nat, local: map<Text, SnapshotEntry>, changes: seq<Change>, now: int)
    requires changes != [] && ColonKeys(local.Keys) && IsDiff(c.resourceHashes, local, changes)
    ensures var move := QueueJob(id, local, changes, now);
      && MoveCan(Machine(c, Idle), move)
      && MoveAfter(Machine(c, Idle), move) == Machine(Enqueue(c, Job(id, c.revision, changes, 0, now)), Idle)
    ensures forall heard :: Hears(heard, QueueJob(id, local, changes, now), heard)
  {
    hide IsDiff, ColonKeys, Enqueue;
  }

  lemma StartMove(c: LocalState, force: bool, now: int)
    ensures var move := StartDrain(force, now);
      && MoveCan(Machine(c, Idle), move)
      && MoveAfter(Machine(c, Idle), move) == Machine(c, Draining(force, None, DueJobs(c.pending, now)))
      && (forall heard :: Hears(heard, move, heard))
      && NoneQueued([move]) && Counts(DrainResult(0, 0, 0, 0, false, None), [move])
      && Ended([move]) == 0 && forall due :: LastTries([move], due) == 0
  {
    assert [StartDrain(force, now)][..0] == [];
    CountsNothing(StartDrain(force, now));
    hide DueJobs;
  }

  lemma FinishMove(c: LocalState, force: bool, known: Option<nat>, moves: seq<Move>)
    ensures MoveCan(Machine(c, Draining(force, known, [])), Finish)
    ensures MoveAfter(Machine(c, Draining(force, known, [])), Finish) == Machine(c, Idle)
    ensures (forall heard :: Hears(heard, Finish, heard)) && !EndsAttempt(Finish)
    ensures NoneQueued(moves) ==> NoneQueued(moves + [Finish])
  {
  }

  lemma OvertakenMove(c: LocalState, known: nat, todo: seq<Job>)
    requires todo != [] && known != todo[0].baseRevision
    ensures var at := Machine(c, Draining(false, Some(known), todo));
      MoveCan(at, Overtaken) && MoveAfter(at, Overtaken) == Machine(c, Idle)
    ensures (forall heard :: Hears(heard, Overtaken, heard)) && EndsAttempt(Overtaken)
            && OutcomeOf(Overtaken) == Conflicting
  {
  }

  lemma SendMove(c: LocalState, force: bool, known: nat, todo: seq<Job>, moves: seq<Move>)
    requires todo != [] && (known == todo[0].baseRevision || force)
    ensures var at := Machine(c, Draining(force, Some(known), todo));
      MoveCan(at, Send) && MoveAfter(at, Send) == Machine(c, Waiting(force, todo))
    ensures forall heard :: Hears(heard, Send, heard)
    ensures NoneQueued(moves) ==> NoneQueued(moves + [Send])
    ensures NoEnd(moves) ==> NoEnd(moves + [Send])
  {
  }

  lemma AckMove(c: LocalState, force: bool, todo: seq<Job>, applied: Applied, heard: seq<Answer>)
    requires todo != []
    ensures var at, move := Machine(c, Waiting(force, todo)), ReceiveAck(applied);
      && MoveCan(at, move)
      && MoveAfter(at, move)
         == Machine(MarkAcked(ApplyAck(c, applied), todo[0].id), Draining(force, Some(applied.revision), todo[1..]))
      && Hears(heard, move, heard + [ToPush(Pushed(applied))]) && EndsAttempt(move) && OutcomeOf(move) == Acked
  {
    hide MarkAcked, ApplyAck;
  }

  lemma FailMove(failure: Failure, last: Move, heard: seq<Answer>)
    requires last.Fail? && last.failure == failure
    ensures Hears(heard, last, heard + [ToRead(GetFailed(failure))])
    ensures Hears(heard, last, heard + [ToPush(PushFailed(failure))]) && EndsAttempt(last)
  {
  }

  lemma SettleMove(at: Machine, force: bool, todo: seq<Job>, failure: Failure, now: int, draw: real)
    requires todo != [] && (at.phase == Waiting(force, todo) || at.phase == Draining(force, None, todo))
    ensures var last := Fail(failure, now, draw);
      && MoveCan(at, last) && !OutcomeOf(last).Acked? && (OutcomeOf(last).Conflicting? <==> IsConflict(failure))
      && (!IsConflict(failure) ==> OutcomeOf(last) == if failure.NetworkError? then Failed else Dead)
      && MoveAfter(at, last)
         == if IsConflict(failure) then Machine(at.saved, Idle)
            else Machine(AfterFailure(at.saved, todo[0].id, failure, now, draw), Draining(force, None, todo[1..]))
  {
    hide AfterFailure;
  }

  lemma NothingDone(s: LocalState, acked: set<nat>, job: Job)
    ensures KeepsOthers(s.pending, s.pending, job) && Joins(acked, acked, job.id, false) && SameBaseline(s, s)
  {
  }

  lemma AddsUp(r: DrainResult, outcome: AttemptOutcome, remote: Option<nat>)
    requires Adds(r) && !r.conflict
    ensures var next := Counted(r.(attempted := r.attempted + 1, remoteRevision := remote), outcome);
      && Adds(next) && next.attempted == r.attempted + 1 && (next.conflict <==> outcome.Conflicting?)
      && next.remoteRevision == remote
      && next.acked == r.acked + (if outcome.Acked? then 1 else 0)
      && next.failed == r.failed + (if outcome.Failed? then 1 else 0)
      && next.deadlettered == r.deadlettered + (if outcome.Dead? then 1 else 0)
      && (forall moves :: Counts(Counted(r, outcome), moves) ==> Counts(next, moves))
  {
    hide CountOf;
  }

  ghost predicate NoEnd(moves: seq<Move>) {
    forall i :: 0 <= i < |moves| ==> !EndsAttempt(moves[i])
  }

  lemma DueAreDistinct(s: LocalState, now: int)
    requires QueueValid(s)
    ensures var due := DueJobs(s.pending, now);
      UniqueIds(due) && forall k :: 0 <= k < |due| ==> due[k] in s.pending && due[k].nextAttemptAt <= now
  {
    DueJobsExact(s.pending, now);
  }

  class SyncClient {
    // The saved state; it is written after every change.
    var state: LocalState
    // Every job ever queued, those acknowledged, and how many attempts were settled.
    ghost var queued: set<nat>
    ghost var acked: set<nat>
    ghost var settled: nat
    ghost var pushes: seq<Push>
    // What the server has answered.
    ghost var heard: seq<Answer>

    constructor ()
      ensures Valid() && state == LocalState(0, None, map[], [], [])
      ensures queued == {} && acked == {} && settled == 0 && pushes == [] && heard == []
    {
      state := LocalState(0, None, map[], [], []);
      queued, acked, settled, pushes, heard := {}, {}, 0, [], [];
    }

    ghost predicate Valid()
      reads this`state, this`queued, this`acked, this`settled
    {
      Books(state, queued, acked, settled)
    }

    method GetState() returns (o: GetOutcome)
      modifies this`heard
      ensures heard == old(heard) + [ToRead(o)]
    {
      o := *;
      heard := heard + [ToRead(o)];
    }

    method PushSync(baseRevision: nat, job: Job, ghost known: nat) returns (o: PushOutcome)
      modifies this`pushes, this`heard
      ensures heard == old(heard) + [ToPush(o)]
      ensures pushes == old(pushes) + [Push(job, baseRevision, known)]
    {
      pushes := pushes + [Push(job, baseRevision, known)];
      o := *;
      heard := heard + [ToPush(o)];
    }

    method Random() returns (r: real)
      ensures 0.0 <= r < 1.0
    {
      r := *;
      if !(0.0 <= r < 1.0) {
        r := 0.0;
      }
    }

    method Acknowledge(job: Job, applied: Applied)
      requires Valid() && job in state.pending
      modifies this`state, this`acked, this`settled
      ensures Valid() && state == MarkAcked(ApplyAck(old(state), applied), job.id)
      ensures AckedWith(old(state), state, job.id) && state.revision == applied.revision
      ensures state.stateHash == Some(applied.stateHash) && state.resourceHashes == applied.resourceHashes
      ensures state.pending == Without(old(state).pending, job.id)
      ensures job.id !in old(acked) && acked == old(acked) + {job.id} && settled == old(settled) + 1
      ensures KeepsOthers(old(state.pending), state.pending, job)
      ensures state.deadletter == old(state.deadletter)
    {
      hide Books, Without, QueueValid, Work;
      BooksAcked(state, queued, acked, settled, job, applied);
      state := MarkAcked(ApplyAck(state, applied), job.id);
      acked := acked + {job.id};
      settled := settled + 1;
    }

    /** Only a network error leaves a job pending, and only if it has attempts left. */
    method Fail(job: Job, failure: Failure, now: int) returns (ghost draw: real)
      requires Valid() && job in state.pending && !IsConflict(failure)
      modifies this`state, this`settled
      ensures state == AfterFailure(old(state), job.id, failure, now, draw)
      ensures FailedWith(old(state), state, job.id, now, !failure.NetworkError?)
      ensures Valid() && SameBaseline(old(state), state) && settled == old(settled) + 1
      ensures KeepsOthers(old(state.pending), state.pending, job)
      ensures failure.NetworkError? && job.attempts + 1 < DEFAULT_MAX_ATTEMPTS ==>
                state.deadletter == old(state.deadletter)
      ensures !(failure.NetworkError? && job.attempts + 1 < DEFAULT_MAX_ATTEMPTS) ==>
                state.deadletter == old(state.deadletter) + [Attempted(job)]
    {
      hide Books, MarkFailed;
      var random := Random();
      BooksFailed(state, queued, acked, settled, job, failure, now, random);
      state := AfterFailure(state, job.id, failure, now, random);
      settled := settled + 1;
      draw := random;
    }

    lemma ValidDue(now: int)
      requires Valid()
      ensures var due := DueJobs(state.pending, now);
        UniqueIds(due) && forall k :: 0 <= k < |due| ==> due[k] in state.pending && due[k].nextAttemptAt <= now
    {
      DueAreDistinct(state, now);
    }

    /** One round of the drain loop, with its catch block: what became of the job, the
        revision known afterwards, and the one to report. `todo` is what the loop still has
        to go through. */
    method Attempt(job: Job, knownBefore: Option<nat>, force: bool, now: int, ghost todo: seq<Job>)
      returns (outcome: AttemptOutcome, known: Option<nat>, reported: Option<nat>, ghost moves: seq<Move>)
      requires Valid() && job in state.pending && todo != [] && todo[0] == job
      modifies this`state, this`acked, this`settled, this`pushes, this`heard
      ensures Valid() && settled == old(settled) + (if outcome.Conflicting? then 0 else 1)
      ensures Follows(Machine(old(state), Draining(force, knownBefore, todo)), moves,
                      Machine(state, if outcome.Conflicting? then Idle else Draining(force, known, todo[1..])),
                      old(heard), heard)
      ensures IsAttempt(moves, outcome)
      ensures KeepsOthers(old(state.pending), state.pending, job)
      ensures outcome.Conflicting? ==> state == old(state)
      ensures Joins(old(acked), acked, job.id, outcome.Acked?)
      ensures !outcome.Acked? ==> SameBaseline(old(state), state)
      ensures outcome.Acked? ==> AckedWith(old(state), state, job.id) && known == Some(state.revision)
      ensures outcome.Failed? || outcome.Dead? ==>
                FailedWith(old(state), state, job.id, now, outcome.Dead?) && known.None?
      ensures knownBefore.Some? ==> reported == knownBefore
      ensures outcome.Conflicting? && known.Some? ==> !force && known.value != job.baseRevision && reported == known
      ensures |state.deadletter| - |old(state.deadletter)|
              == (if outcome.Dead? then 1 else GivenUpUncounted(outcome, job))
      ensures Sends(old(pushes), pushes, job, force, reported,
                    reported.Some? && !(outcome.Conflicting? && known.Some?))
    {
      hide *;
      NoPush(pushes, job, force);
      NothingDone(state, acked, job);
      AtMostOne(Acked, job);
      AtMostOne(Conflicting, job);
      reported := None;
      ghost var start := Machine(state, Draining(force, knownBefore, todo));
      ghost var at := Machine(state, Draining(force, None, todo));
      ghost var answered;
      var failure: Option<Failure>;
      failure, known, moves, answered := Learn(knownBefore, force, todo);
      if failure.None? {
        reported := known;
        at := Machine(state, Draining(force, known, todo));
        if known.value != job.baseRevision && !force {
          OvertakenMove(state, known.value, todo);
          FollowsOn(start, moves, at, old(heard), heard, Overtaken, heard);
          OneAttempt(moves, Overtaken, Conflicting);
          return Conflicting, known, reported, moves + [Overtaken];
        }
        SendMove(state, force, known.value, todo, moves);
        FollowsOn(start, moves, at, old(heard), heard, Send, heard);
        moves, at := moves + [Send], Machine(state, Waiting(force, todo));
        ghost var applied;
        failure, applied := SendJob(job, known.value, force);
        if failure.None? {
          AckMove(at.saved, force, todo, applied, answered);
          FollowsOn(start, moves, at, old(heard), answered, ReceiveAck(applied), heard);
          OneAttempt(moves, ReceiveAck(applied), Acked);
          return Acked, Some(state.revision), reported, moves + [ReceiveAck(applied)];
        }
      }
      ghost var last;
      outcome, last := Settle(job, failure.value, now, force, todo, at);
      FailMove(failure.value, last, answered);
      FollowsOn(start, moves, at, old(heard), answered, last, heard);
      OneAttempt(moves, last, outcome);
      return outcome, None, reported, moves + [last];
    }

    /** Pushes a job; the answer to an accepted push is taken over. */
    method SendJob(job: Job, known: nat, force: bool) returns (failure: Option<Failure>, ghost applied: Applied)
      requires Valid() && job in state.pending
      requires known == job.baseRevision || force
      modifies this`state, this`acked, this`settled, this`pushes, this`heard
      ensures Valid() && Sends(old(pushes), pushes, job, force, Some(known), true)
      ensures failure.Some? ==>
                && state == old(state) && acked == old(acked) && settled == old(settled)
                && heard == old(heard) + [ToPush(PushFailed(failure.value))]
      ensures failure.None? ==>
                && heard == old(heard) + [ToPush(Pushed(applied))] && settled == old(settled) + 1
                && state == MarkAcked(ApplyAck(old(state), applied), job.id) && state.revision == applied.revision
                && AckedWith(old(state), state, job.id) && Joins(old(acked), acked, job.id, true)
                && KeepsOthers(old(state.pending), state.pending, job)
                && state.deadletter == old(state.deadletter)
    {
      hide Books, MarkAcked, AckedWith, KeepsOthers;
      var baseRevision := if force then known else job.baseRevision;
      var o := PushSync(baseRevision, job, known);
      if o.PushFailed? {
        return Some(o.failure), Applied(0, [], map[]);
      }
      Acknowledge(job, o.applied);
      return None, o.applied;
    }

    /** Asks for the server's revision unless it is known. */
    method Learn(knownBefore: Option<nat>, force: bool, ghost todo: seq<Job>)
      returns (failure: Option<Failure>, known: Option<nat>, ghost moves: seq<Move>, ghost answered: seq<Answer>)
      requires todo != []
      modifies this`heard
      ensures Follows(Machine(state, Draining(force, knownBefore, todo)), moves,
                      Machine(state, Draining(force, known, todo)), old(heard), answered)
      ensures heard == if failure.Some? then answered + [ToRead(GetFailed(failure.value))] else answered
      ensures failure.None? <==> known.Some?
      ensures knownBefore.Some? ==> known == knownBefore
      ensures NoneQueued(moves) && NoEnd(moves)
    {
      hide Follows;
      ghost var start := Machine(state, Draining(force, knownBefore, todo));
      moves, answered := [], heard;
      FollowsNothing(start, heard);
      if knownBefore.Some? {
        return None, knownBefore, moves, answered;
      }
      var o := GetState();
      if o.GetFailed? {
        return Some(o.failure), None, moves, answered;
      }
      known := Some(if o.GotState? then o.revision else state.revision);
      moves := [if o.GotState? then ReadRevision(o.revision) else ReadNotModified];
      FollowsOne(start, answered, moves[0], heard);
      return None, known, moves, heard;
    }

    /** The catch block. A network error counts as failed also when it was the last attempt
        and the job is given up. */
    method Settle(job: Job, failure: Failure, now: int, ghost force: bool, ghost todo: seq<Job>, ghost at: Machine)
      returns (outcome: AttemptOutcome, ghost last: Move)
      requires Valid() && job in state.pending && todo != [] && todo[0] == job && at.saved == state
      requires at.phase == Waiting(force, todo) || at.phase == Draining(force, None, todo)
      modifies this`state, this`settled
      ensures Valid() && settled == old(settled) + (if outcome.Conflicting? then 0 else 1)
      ensures !outcome.Acked? && (outcome.Conflicting? ==> state == old(state))
      ensures !outcome.Conflicting? ==> FailedWith(old(state), state, job.id, now, outcome.Dead?)
      ensures KeepsOthers(old(state.pending), state.pending, job) && SameBaseline(old(state), state)
      ensures |state.deadletter| - |old(state.deadletter)|
              == (if outcome.Dead? then 1 else GivenUpUncounted(outcome, job))
      ensures MoveCan(at, last) && outcome == OutcomeOf(last) && last.Fail? && last.failure == failure
      ensures MoveAfter(at, last)
              == Machine(state, if outcome.Conflicting? then Idle else Draining(force, None, todo[1..]))
    {
      JobInBudget(state, queued, acked, settled, job);
      NothingDone(state, acked, job);
      AtMostOne(Conflicting, job);
      hide *;
      if IsConflict(failure) {
        SettleMove(at, force, todo, failure, now, 0.0);
        return Conflicting, SyncMachine.Fail(failure, now, 0.0);
      }
      var before := |state.deadletter|;
      ghost var draw := Fail(job, failure, now);
      last := SyncMachine.Fail(failure, now, draw);
      SettleMove(at, force, todo, failure, now, draw);
      UncountedIff(job);
      outcome := if !failure.NetworkError? && |state.deadletter| > before then Dead else Failed;
    }

    method Drain(force: bool, now: int) returns (result: DrainResult, ghost moves: seq<Move>)
      requires Valid()
      modifies this
      ensures Valid() && queued == old(queued) && old(acked) <= acked
      ensures Follows(Machine(old(state), Idle), moves, Machine(state, Idle), old(heard), heard)
      ensures moves != [] && NoneQueued(moves) && (result.conflict <==> moves[|moves| - 1] != Finish)
      ensures Adds(result) && Counts(result, moves)
      ensures result.attempted <= |DueJobs(old(state.pending), now)|
      ensures !result.conflict ==> result.attempted == |DueJobs(old(state.pending), now)|
      ensures |acked| == |old(acked)| + result.acked
      // The jobs given up are those counted so and those whose last attempt was a network error.
      ensures |state.deadletter| - |old(state.deadletter)|
              == result.deadlettered + LastTries(moves, DueJobs(old(state.pending), now))
      ensures result.deadlettered <= |state.deadletter| - |old(state.deadletter)| <= result.deadlettered + result.failed
      ensures settled == old(settled) + result.acked + result.failed + result.deadlettered
      ensures result.acked == 0 ==> SameBaseline(old(state), state)
      ensures old(pushes) <= pushes && SentOrderly(old(pushes), pushes, force)
      ensures Subsequence(JobsOf(pushes[|old(pushes)|..]), DueJobs(old(state.pending), now))
      ensures Subsequence(JobsOf(pushes[|old(pushes)|..]), old(state.pending))
      ensures !result.conflict ==> result.remoteRevision == LastKnown(pushes[|old(pushes)|..])
    {
      DueJobsInOrder(state.pending, now);
      hide *;
      var due := DueJobs(state.pending, now);
      ValidDue(now);
      AllAwaitTurn(due, state.pending);
      result := DrainResult(0, 0, 0, 0, false, None);
      assert Adds(result) by { NothingAdds(); }
      var known: Option<nat> := None;
      SentNothing(pushes, due, force);
      ghost var start := Machine(state, Idle);
      moves := [StartDrain(force, now)];
      StartMove(state, force, now);
      FollowsOne(start, heard, StartDrain(force, now), heard);
      StaysBaseline(state, state, state);
      assert due[0..] == due;
      for i := 0 to |due|
        invariant Valid() && queued == old(queued) && old(acked) <= acked
        invariant Adds(result) && result.attempted == i && !result.conflict && Counts(result, moves)
        invariant |acked| == |old(acked)| + result.acked
        invariant Ended(moves) == i && LastTries(moves, due) <= result.failed
        invariant |state.deadletter| - |old(state.deadletter)| == result.deadlettered + LastTries(moves, due)
        invariant settled == old(settled) + result.acked + result.failed + result.deadlettered
        invariant result.acked == 0 ==> SameBaseline(old(state), state)
        invariant AwaitTurn(due, i, state.pending)
        invariant SentSoFar(old(pushes), pushes, due, i, force, result.remoteRevision)
        invariant Follows(start, moves, Machine(state, Draining(force, known, due[i..])), old(heard), heard)
        invariant NoneQueued(moves)
      {
        ghost var before, between, pushesBefore, ackedBefore := state, heard, pushes, acked;
        NextAwaits(due, i, state.pending);
        ghost var at := Machine(state, Draining(force, known, due[i..]));
        var outcome, next, reported;
        ghost var more;
        outcome, next, reported, more := Attempt(due[i], known, force, now, due[i..]);
        assert due[i..][1..] == due[i + 1..];
        ghost var end := Machine(state, if outcome.Conflicting? then Idle else Draining(force, next, due[i + 1..]));
        FollowsThrough(start, moves, at, more, end, old(heard), between, heard);
        CountsNext(result, moves, more, outcome);
        AttemptQueuesNone(moves, more, outcome);
        LastTriesOfAttempt(moves, more, outcome, due);
        AtMostOne(outcome, due[i]);
        AttemptEnds(more, outcome);
        moves := moves + more;
        TurnTaken(due, i, before.pending, state.pending);
        JoinsCount(ackedBefore, acked, due[i].id, outcome.Acked?);
        StaysBaseline(old(state), before, state);
        ghost var sent := reported.Some? && !(outcome.Conflicting? && next.Some?);
        ghost var remote := if sent then reported else result.remoteRevision;
        SentRound(old(pushes), pushesBefore, pushes, due, i, force, result.remoteRevision, reported, sent);
        SentInTheEnd(old(pushes), pushes, due, i + 1, force, remote);
        SubsequenceTransitive(JobsOf(pushes[|old(pushes)|..]), due, old(state.pending));
        known := next;
        AddsUp(result, outcome, if reported.Some? then reported else result.remoteRevision);
        result := result.(attempted := result.attempted + 1,
                          remoteRevision := if reported.Some? then reported else result.remoteRevision);
        result := Counted(result, outcome);
        if outcome.Conflicting? {
          break;
        }
      }
      if !result.conflict {
        SentInTheEnd(old(pushes), pushes, due, |due|, force, result.remoteRevision);
        SubsequenceTransitive(JobsOf(pushes[|old(pushes)|..]), due, old(state.pending));
        assert due[|due|..] == [];
        FinishMove(state, force, known, moves);
        FollowsOn(start, moves, Machine(state, Draining(force, known, [])), old(heard), heard, Finish, heard);
        CountsSilent(result, moves, Finish);
        LastTriesOn(moves, Finish, due);
        moves := moves + [Finish];
      }
    }

    /** Queues what changed since the last sync, as one job on the current revision, and
        drains. The job carries the difference between the saved hashes and the snapshot. */
    method SyncPush(local: map<Text, SnapshotEntry>, force: bool, now: int, freshId: nat)
      returns (noop: bool, drained: DrainResult, ghost moves: seq<Move>)
      requires Valid() && ColonKeys(local.Keys) && freshId !in queued
      modifies this
      ensures Valid() && Adds(drained)
      ensures Follows(Machine(old(state), Idle), moves, Machine(state, Idle), old(heard), heard)
      ensures queued == if old(state.resourceHashes) == HashesOf(local) then old(queued) else old(queued) + {freshId}
      ensures old(state.resourceHashes) == HashesOf(local) ==> NoneQueued(moves)
      ensures old(state.resourceHashes) != HashesOf(local) ==>
                && moves != [] && moves[0].QueueJob? && moves[0].id == freshId && moves[0].snapshot == local
                && IsDiff(old(state.resourceHashes), local, moves[0].changes) && NoneQueued(moves[1..])
      ensures noop <==> queued == old(queued) && drained.attempted == 0
    {
      hide *;
      var changes := DiffSnapshot(state.resourceHashes, local);
      DiffEmptyIff(state.resourceHashes, local, changes);
      ghost var start := Machine(state, Idle);
      moves := [];
      FollowsNothing(start, heard);
      if |changes| > 0 {
        moves := [QueueJob(freshId, local, changes, now)];
        QueueMove(state, freshId, local, changes, now);
        FollowsOne(start, heard, moves[0], heard);
        EnqueueNew(Job(freshId, state.revision, changes, 0, now));
      }
      ghost var at, more := Machine(state, Idle), [];
      drained, more := Drain(force, now);
      FollowsThrough(start, moves, at, more, Machine(state, Idle), old(heard), old(heard), heard);
      assert if |changes| > 0 then (moves + more)[0] == moves[0] && (moves + more)[1..] == more
             else moves + more == more;
      moves := moves + more;
      noop := |changes| == 0 && drained.attempted == 0;
    }

    method EnqueueNew(job: Job)
      requires Valid() && job.id !in queued && job.attempts == 0
      modifies this`state, this`queued
      ensures Valid() && state == Enqueue(old(state), job) && queued == old(queued) + {job.id}
      ensures state == old(state).(pending := old(state).pending + [job])
    {
      BooksEnqueued(state, queued, acked, settled, job);
      state := Enqueue(state, job);
      queued := queued + {job.id};
    }

    /** Adopts the server's state as the new baseline; the queue is not touched. */
    method SyncPull() returns (upToDate: bool, ok: bool, ghost moves: seq<Move>)
      requires Valid()
      modifies this`state, this`heard
      ensures Valid()
      ensures |heard| == |old(heard)| + 1 && heard[|old(heard)|].ToRead?
      ensures var o := heard[|old(heard)|].read;
        && (ok <==> !o.GetFailed?) && (upToDate <==> o.NotModified?)
        && state == if o.GotState?
                    then old(state).(revision := o.revision, stateHash := o.stateHash,
                                     resourceHashes := o.resourceHashes)
                    else old(state)
      ensures Leads(Machine(old(state), Idle), moves, Machine(state, Idle))
    {
      moves := [];
      var o := GetState();
      if o.GetFailed? {
        return false, false, moves;
      }
      if o.NotModified? {
        return true, true, moves;
      }
      state := state.(revision := o.revision, stateHash := o.stateHash, resourceHashes := o.resourceHashes);
      moves := [Pull(o.revision, o.stateHash, o.resourceHashes)];
      assert moves[1..] == [];
      return false, true, moves;
    }
  }

  lemma DiffEmptyIff(base: Hashes, local: map<Text, SnapshotEntry>, cs: seq<Change>)
    requires IsDiff(base, local, cs)
    ensures cs == [] <==> base == HashesOf(local)
  {
    var keys :| DiffOn(base, local, keys, cs, base.Keys + local.Keys);
    if cs == [] {
      forall k ensures Get(base, k) == Get(HashesOf(local), k) {
        HashesOfAt(local, k);
        assert k !in keys;
      }
      SameEverywhere(base, HashesOf(local));
    } else {
      HashesOfAt(local, keys[0]);
      assert keys[0] in keys;
    }
  }

  /** The n-th network error in a row leaves a fresh job pending up to the seventh and gives
      it up at the eighth. */
  lemma EightNetworkErrorsGiveUp(job: Job, now: int, random: real, s: LocalState)
    requires QueueValid(s) && job in s.pending && 0.0 <= random < 1.0
    ensures var t := AfterFailure(s, job.id, NetworkError, now, random);
      (job.id in Ids(t.pending) <==> job.attempts < 7) && (job.id in Ids(t.deadletter) <==> job.attempts == 7)
  {
    assert job.id in Ids(s.pending);
    if job.attempts == 7 {
      FailedDies(s, job, DEFAULT_MAX_ATTEMPTS, now, random);
    } else {
      FailedStays(s, job, DEFAULT_MAX_ATTEMPTS, now, random);
    }
  }
}
