/** The retry queue of the cloud sync: pending jobs, jobs given up, and the backoff between
    attempts. */
module CloudQueue {
  import opened Wrappers
  import opened CodeUnits
  import opened CloudDiff

  const BASE_BACKOFF_MS := 1000
  const MAX_BACKOFF_MS := 60000
  const DEFAULT_MAX_ATTEMPTS := 8

  // Times are milliseconds. `id` stands for the job's identifier and its idempotency key.
  datatype Job = Job(id: nat, baseRevision: nat, changes: seq<Change>, attempts: nat, nextAttemptAt: int)

  datatype LocalState = LocalState(
    revision: nat, stateHash: Option<Text>, resourceHashes: Hashes, pending: seq<Job>, deadletter: seq<Job>)

  function Pow2(n: nat): nat {
    if n == 0 then 1 else 2 * Pow2(n - 1)
  }

  /** `random` is the draw from the interval from 0 up to 1. */
  function ComputeBackoff(attempts: nat, random: real): int {
    var full := BASE_BACKOFF_MS * Pow2(attempts);
    var exp := if full < MAX_BACKOFF_MS then full else MAX_BACKOFF_MS;
    (exp as real / 2.0 + random * (exp as real / 2.0)).Floor
  }

  /** The delay lies between half and all of a second doubled per attempt, capped at one
      minute; it is never zero. */
  lemma BackoffBounds(attempts: nat, random: real)
    requires 0.0 <= random < 1.0
    ensures var delay := ComputeBackoff(attempts, random);
      if attempts < 6 then BASE_BACKOFF_MS / 2 * Pow2(attempts) <= delay < BASE_BACKOFF_MS * Pow2(attempts)
      else MAX_BACKOFF_MS / 2 <= delay < MAX_BACKOFF_MS
  {
    if attempts < 6 {
      assert Pow2(0) == 1 && Pow2(1) == 2 && Pow2(2) == 4 && Pow2(3) == 8 && Pow2(4) == 16 && Pow2(5) == 32;
      HalfToAll(BASE_BACKOFF_MS / 2 * Pow2(attempts), random);
    } else {
      PowerAtLeast(attempts);
      HalfToAll(MAX_BACKOFF_MS / 2, random);
    }
  }

  /** And it is spread evenly over that half: `random` of it is added, rounded down. */
  lemma BackoffExact(attempts: nat, random: real)
    requires 0.0 <= random < 1.0
    ensures var half := if attempts < 6 then 500 * Pow2(attempts) else 30000;
      var delay := half as real + random * (half as real);
      delay - 1.0 < ComputeBackoff(attempts, random) as real <= delay
  {
    CappedIs(attempts);
    var half := if attempts < 6 then 500 * Pow2(attempts) else 30000;
    hide Pow2;
    HalfOf(half);
    var extra := Share(half as real, random);
    FloorIs(half as real + extra);
  }

  lemma CappedIs(attempts: nat)
    ensures var half := if attempts < 6 then 500 * Pow2(attempts) else 30000;
      half > 0
      && var full := BASE_BACKOFF_MS * Pow2(attempts);
         (if full < MAX_BACKOFF_MS then full else MAX_BACKOFF_MS) == 2 * half
  {
    if attempts >= 6 {
      PowerAtLeast(attempts);
    } else {
      assert Pow2(0) == 1 && Pow2(1) == 2 && Pow2(2) == 4 && Pow2(3) == 8 && Pow2(4) == 16 && Pow2(5) == 32;
    }
  }

  lemma HalfOf(half: nat)
    ensures (2 * half) as real / 2.0 == half as real
  {
  }

  lemma FloorIs(x: real)
    ensures x - 1.0 < x.Floor as real <= x
  {
  }

  lemma HalfToAll(half: nat, random: real)
    requires 0.0 <= random < 1.0 && half > 0
    ensures var all := (2 * half) as real;
      half <= (all / 2.0 + random * (all / 2.0)).Floor < 2 * half
  {
    var whole := (2 * half) as real / 2.0;
    assert whole == half as real;
    var extra := Share(whole, random);
    Between(half, extra);
  }

  lemma Share(whole: real, random: real) returns (extra: real)
    requires 0.0 <= random < 1.0 && whole > 0.0
    ensures extra == random * whole && 0.0 <= extra < whole
  {
    extra := random * whole;
  }

  lemma Between(half: nat, extra: real)
    requires 0.0 <= extra < half as real
    ensures half <= (half as real + extra).Floor < 2 * half
  {
  }

  lemma {:induction false} PowerAtLeast(n: nat)
    requires n >= 6
    ensures Pow2(n) >= 64
  {
    if n > 6 {
      PowerAtLeast(n - 1);
    } else {
      assert Pow2(3) == 8;
    }
  }

  function Enqueue(s: LocalState, job: Job): LocalState {
    s.(pending := s.pending + [job])
  }

  function DueJobs(jobs: seq<Job>, now: int): seq<Job> {
    if jobs == [] then []
    else (if jobs[0].nextAttemptAt <= now then [jobs[0]] else []) + DueJobs(jobs[1..], now)
  }

  function Without(jobs: seq<Job>, id: nat): seq<Job> {
    if jobs == [] then [] else (if jobs[0].id != id then [jobs[0]] else []) + Without(jobs[1..], id)
  }

  function Find(jobs: seq<Job>, id: nat): Option<Job> {
    if jobs == [] then None else if jobs[0].id == id then Some(jobs[0]) else Find(jobs[1..], id)
  }

  function MarkAcked(s: LocalState, id: nat): LocalState {
    s.(pending := Without(s.pending, id))
  }

  function MarkFailed(s: LocalState, id: nat, maxAttempts: nat, now: int, random: real): LocalState {
    var found := Find(s.pending, id);
    if found.None? then s
    else
      var attempts := found.value.attempts + 1;
      var pending := Without(s.pending, id);
      if attempts >= maxAttempts then
        s.(pending := pending, deadletter := s.deadletter + [found.value.(attempts := attempts)])
      else
        var nextAttemptAt := now + ComputeBackoff(attempts, random);
        s.(pending := pending + [found.value.(attempts := attempts, nextAttemptAt := nextAttemptAt)])
  }

  // ------------------------------------------------------------- what they keep

  ghost function Ids(jobs: seq<Job>): set<nat> {
    set j | j in jobs :: j.id
  }

  ghost predicate UniqueIds(jobs: seq<Job>) {
    forall i, j :: 0 <= i < j < |jobs| ==> jobs[i].id != jobs[j].id
  }

  /** Attempts the pending jobs still have, all together. */
  ghost function Work(jobs: seq<Job>): int {
    if jobs == [] then 0 else Work(jobs[1..]) + (DEFAULT_MAX_ATTEMPTS - jobs[0].attempts)
  }

  ghost predicate InBudget(jobs: seq<Job>) {
    forall i :: 0 <= i < |jobs| ==> jobs[i].attempts < DEFAULT_MAX_ATTEMPTS
  }

  /** Each job is in one place and has attempts left while it is pending. */
  ghost predicate QueueValid(s: LocalState) {
    && UniqueIds(s.pending) && UniqueIds(s.deadletter) && Ids(s.pending) !! Ids(s.deadletter)
    && InBudget(s.pending)
  }

  lemma {:induction false} DueJobsExact(jobs: seq<Job>, now: int)
    ensures forall j :: j in DueJobs(jobs, now) <==> j in jobs && j.nextAttemptAt <= now
    ensures UniqueIds(jobs) ==> UniqueIds(DueJobs(jobs, now))
  {
    if jobs != [] {
      DueJobsExact(jobs[1..], now);
      var rest, due := DueJobs(jobs[1..], now), DueJobs(jobs, now);
      assert jobs == [jobs[0]] + jobs[1..];
      if UniqueIds(jobs) {
        forall j | 0 <= j < |rest| ensures rest[j].id != jobs[0].id {
          assert rest[j] in jobs[1..];
        }
      }
    }
  }

  /** The elements of `a` stand in `b` in the same order. */
  ghost predicate Subsequence(a: seq<Job>, b: seq<Job>) {
    a == [] || (b != [] && ((a[|a| - 1] == b[|b| - 1] && Subsequence(a[..|a| - 1], b[..|b| - 1]))
                            || Subsequence(a, b[..|b| - 1])))
  }

  lemma SubsequenceNext(a: seq<Job>, b: seq<Job>, job: Job)
    requires Subsequence(a, b)
    ensures Subsequence(a, b + [job]) && Subsequence(a + [job], b + [job])
  {
    assert (b + [job])[..|b|] == b && (a + [job])[..|a|] == a;
  }

  lemma {:induction false} SubsequenceLonger(a: seq<Job>, b: seq<Job>, c: seq<Job>)
    requires Subsequence(a, b)
    ensures Subsequence(a, b + c)
  {
    hide Subsequence;
    if c == [] {
      assert b + c == b;
    } else {
      SubsequenceLonger(a, b, c[..|c| - 1]);
      SubsequenceNext(a, b + c[..|c| - 1], c[|c| - 1]);
      assert b + c[..|c| - 1] + [c[|c| - 1]] == b + c;
    }
  }

  lemma {:induction false} SubsequenceTransitive(a: seq<Job>, b: seq<Job>, c: seq<Job>)
    requires Subsequence(a, b) && Subsequence(b, c)
    ensures Subsequence(a, c)
    decreases |b| + |c|
  {
    if a != [] {
      var bs, cs := b[..|b| - 1], c[..|c| - 1];
      if b[|b| - 1] == c[|c| - 1] && Subsequence(bs, cs) {
        if a[|a| - 1] == b[|b| - 1] && Subsequence(a[..|a| - 1], bs) {
          SubsequenceTransitive(a[..|a| - 1], bs, cs);
        } else {
          SubsequenceTransitive(a, bs, cs);
        }
      } else {
        SubsequenceTransitive(a, b, cs);
      }
    }
  }

  lemma {:induction false} SubsequenceBehind(a: seq<Job>, b: seq<Job>, job: Job)
    requires Subsequence(a, b)
    ensures Subsequence(a, [job] + b) && Subsequence([job] + a, [job] + b)
    decreases |b|
  {
    if a == [] {
      assert [job] + a == [job];
      if b == [] {
        assert [job] + b == [job] && [job][..0] == [];
      } else {
        SubsequenceBehind(a, b[..|b| - 1], job);
        assert ([job] + b)[..|b|] == [job] + b[..|b| - 1];
      }
    } else {
      var init := b[..|b| - 1];
      assert ([job] + b)[..|b|] == [job] + init && ([job] + b)[|b|] == b[|b| - 1];
      if a[|a| - 1] == b[|b| - 1] && Subsequence(a[..|a| - 1], init) {
        SubsequenceBehind(a[..|a| - 1], init, job);
        assert ([job] + a)[..|a|] == [job] + a[..|a| - 1];
      } else {
        SubsequenceBehind(a, init, job);
      }
    }
  }

  /** The due jobs stand in the order of the queue. */
  lemma {:induction false} DueJobsInOrder(jobs: seq<Job>, now: int)
    ensures Subsequence(DueJobs(jobs, now), jobs)
  {
    hide Subsequence;
    if jobs == [] {
      NothingIsSubsequence();
    } else {
      DueJobsInOrder(jobs[1..], now);
      SubsequenceBehind(DueJobs(jobs[1..], now), jobs[1..], jobs[0]);
      assert [jobs[0]] + jobs[1..] == jobs && [] + DueJobs(jobs[1..], now) == DueJobs(jobs[1..], now);
    }
  }

  lemma NothingIsSubsequence()
    ensures Subsequence([], [])
  {
  }

  /** Removing a job closes the gap and changes nothing else. */
  lemma {:induction false} WithoutAt(jobs: seq<Job>, i: nat)
    requires UniqueIds(jobs) && i < |jobs|
    ensures Without(jobs, jobs[i].id) == jobs[..i] + jobs[i + 1..]
  {
    if i == 0 {
      assert jobs[0].id !in Ids(jobs[1..]) by {
        forall j | j in jobs[1..] ensures j.id != jobs[0].id {
          var k :| 0 <= k < |jobs[1..]| && jobs[1..][k] == j;
          assert jobs[k + 1] == j;
        }
      }
      WithoutAbsent(jobs[1..], jobs[0].id);
    } else {
      assert jobs[1..][i - 1] == jobs[i] && jobs[0].id != jobs[i].id;
      WithoutAt(jobs[1..], i - 1);
      assert jobs[1..][..i - 1] == jobs[..i][1..] && jobs[1..][i..] == jobs[i + 1..];
      assert jobs[..i] == [jobs[0]] + jobs[..i][1..];
    }
  }

  lemma {:induction false} FindExact(jobs: seq<Job>, id: nat)
    ensures Find(jobs, id).None? <==> id !in Ids(jobs)
    ensures Find(jobs, id).Some? ==> Find(jobs, id).value in jobs && Find(jobs, id).value.id == id
  {
    if jobs != [] {
      FindExact(jobs[1..], id);
      assert jobs == [jobs[0]] + jobs[1..];
    }
  }

  lemma {:induction false} WithoutExact(jobs: seq<Job>, id: nat)
    ensures forall j :: j in Without(jobs, id) <==> j in jobs && j.id != id
    ensures UniqueIds(jobs) ==> UniqueIds(Without(jobs, id))
  {
    if jobs != [] {
      WithoutExact(jobs[1..], id);
      var rest := Without(jobs[1..], id);
      assert jobs == [jobs[0]] + jobs[1..];
      if UniqueIds(jobs) {
        forall j | 0 <= j < |rest| ensures rest[j].id != jobs[0].id {
          assert rest[j] in jobs[1..];
        }
      }
    }
  }

  lemma {:induction false} WithoutAbsent(jobs: seq<Job>, id: nat)
    requires id !in Ids(jobs)
    ensures Without(jobs, id) == jobs
  {
    if jobs != [] {
      assert jobs == [jobs[0]] + jobs[1..];
      assert Ids(jobs[1..]) <= Ids(jobs) && jobs[0].id in Ids(jobs);
      WithoutAbsent(jobs[1..], id);
    }
  }

  lemma {:induction false} WorkWithout(jobs: seq<Job>, job: Job)
    requires UniqueIds(jobs) && job in jobs
    ensures Work(Without(jobs, job.id)) == Work(jobs) - (DEFAULT_MAX_ATTEMPTS - job.attempts)
  {
    if jobs[0] == job {
      assert job.id !in Ids(jobs[1..]) by {
        forall j | j in jobs[1..] ensures j.id != job.id {
          var i :| 0 <= i < |jobs[1..]| && jobs[1..][i] == j;
          assert jobs[i + 1] == j;
        }
      }
      WithoutAbsent(jobs[1..], job.id);
      assert Without(jobs, job.id) == [] + jobs[1..] == jobs[1..];
    } else {
      var i :| 0 <= i < |jobs| && jobs[i] == job;
      assert jobs[1..][i - 1] == job && jobs[0].id != jobs[i].id;
      WorkWithout(jobs[1..], job);
      assert Without(jobs, job.id)[1..] == Without(jobs[1..], job.id);
    }
  }

  lemma {:induction false} WorkAppend(jobs: seq<Job>, job: Job)
    ensures Work(jobs + [job]) == Work(jobs) + (DEFAULT_MAX_ATTEMPTS - job.attempts)
  {
    if jobs == [] {
      assert jobs + [job] == [job] && [job][1..] == [];
    } else {
      assert (jobs + [job])[1..] == jobs[1..] + [job];
      WorkAppend(jobs[1..], job);
    }
  }

  lemma {:induction false} WorkNonnegative(jobs: seq<Job>)
    requires InBudget(jobs)
    ensures |jobs| <= Work(jobs) <= DEFAULT_MAX_ATTEMPTS * |jobs|
  {
    if jobs != [] {
      WorkNonnegative(jobs[1..]);
    }
  }

  lemma IdsAppend(jobs: seq<Job>, job: Job)
    ensures Ids(jobs + [job]) == Ids(jobs) + {job.id}
    ensures UniqueIds(jobs) && job.id !in Ids(jobs) ==> UniqueIds(jobs + [job])
    ensures InBudget(jobs) && job.attempts < DEFAULT_MAX_ATTEMPTS ==> InBudget(jobs + [job])
  {
    assert forall j :: j in jobs + [job] <==> j in jobs || j == job;
    assert forall i :: 0 <= i < |jobs| ==> jobs[i].id in Ids(jobs);
  }

  lemma IdsWithout(jobs: seq<Job>, id: nat)
    ensures Ids(Without(jobs, id)) == Ids(jobs) - {id}
    ensures InBudget(jobs) ==> InBudget(Without(jobs, id))
  {
    WithoutExact(jobs, id);
    var rest := Without(jobs, id);
    assert forall i :: 0 <= i < |rest| ==> rest[i] in rest;
  }

  ghost predicate KeepsOthers(before: seq<Job>, after: seq<Job>, job: Job) {
    forall j :: j in before && j != job ==> j in after
  }

  /** One attempt at a job has been settled: less work is left and no other job is
      touched. */
  ghost predicate Settles(s: LocalState, t: LocalState, job: Job) {
    && QueueValid(t) && Work(t.pending) < Work(s.pending)
    && KeepsOthers(s.pending, t.pending, job)
  }

  /** An acknowledged job leaves the queue. */
  lemma AckedLeaves(s: LocalState, job: Job)
    requires QueueValid(s) && job in s.pending
    ensures var t := MarkAcked(s, job.id);
      Settles(s, t, job) && t.deadletter == s.deadletter && Ids(t.pending) == Ids(s.pending) - {job.id}
  {
    WithoutExact(s.pending, job.id);
    IdsWithout(s.pending, job.id);
    WorkWithout(s.pending, job);
    OnlyOneWithId(s.pending, job);
  }

  lemma OnlyOneWithId(jobs: seq<Job>, job: Job)
    requires UniqueIds(jobs) && job in jobs
    ensures forall j :: j in jobs && j.id == job.id ==> j == job
  {
  }

  lemma InIds(jobs: seq<Job>, job: Job)
    requires job in jobs
    ensures job.id in Ids(jobs)
  {
  }

  function Attempted(job: Job): Job {
    job.(attempts := job.attempts + 1)
  }

  function Delayed(job: Job, now: int, random: real): Job {
    Attempted(job).(nextAttemptAt := now + ComputeBackoff(job.attempts + 1, random))
  }

  /** What becomes of a queue in which the job is found. */
  lemma FailedIs(s: LocalState, job: Job, maxAttempts: nat, now: int, random: real)
    requires UniqueIds(s.pending) && job in s.pending
    ensures MarkFailed(s, job.id, maxAttempts, now, random)
            == if job.attempts + 1 >= maxAttempts
               then s.(pending := Without(s.pending, job.id), deadletter := s.deadletter + [Attempted(job)])
               else s.(pending := Without(s.pending, job.id) + [Delayed(job, now, random)])
  {
    FindExact(s.pending, job.id);
    OnlyOneWithId(s.pending, job);
    assert job.id in Ids(s.pending);
    hide ComputeBackoff, Without, Find, UniqueIds;
  }

  /** A job that fails with no attempt left is given up. */
  lemma FailedDies(s: LocalState, job: Job, maxAttempts: nat, now: int, random: real)
    requires QueueValid(s) && job in s.pending && job.attempts + 1 >= maxAttempts
    ensures var t := MarkFailed(s, job.id, maxAttempts, now, random);
      && Settles(s, t, job)
      && Ids(t.pending) == Ids(s.pending) - {job.id} && Ids(t.deadletter) == Ids(s.deadletter) + {job.id}
      && t.deadletter == s.deadletter + [Attempted(job)]
  {
    FailedIs(s, job, maxAttempts, now, random);
    AckedLeaves(s, job);
    DeadJoined(s, job);
    hide *;
  }

  lemma DeadJoined(s: LocalState, job: Job)
    requires QueueValid(s) && job in s.pending && Settles(s, MarkAcked(s, job.id), job)
    requires Ids(Without(s.pending, job.id)) == Ids(s.pending) - {job.id}
    ensures var t := s.(pending := Without(s.pending, job.id), deadletter := s.deadletter + [Attempted(job)]);
      Settles(s, t, job) && Ids(t.deadletter) == Ids(s.deadletter) + {job.id}
  {
    InIds(s.pending, job);
    hide ComputeBackoff, Without, Find, Work, MarkFailed, Ids, UniqueIds, InBudget, KeepsOthers;
    IdsAppend(s.deadletter, Attempted(job));
    StillApart(Ids(s.pending), Ids(s.deadletter), job.id);
  }

  lemma StillApart(a: set<nat>, b: set<nat>, x: nat)
    requires a !! b && x in a
    ensures a - {x} !! b + {x} && x !in b
  {
  }

  /** A job that fails with attempts left stays pending, one attempt further, and is not
      due again at once. */
  lemma FailedStays(s: LocalState, job: Job, maxAttempts: nat, now: int, random: real)
    requires QueueValid(s) && job in s.pending && job.attempts + 1 < maxAttempts <= DEFAULT_MAX_ATTEMPTS
    requires 0.0 <= random < 1.0
    ensures var t := MarkFailed(s, job.id, maxAttempts, now, random);
      && Settles(s, t, job) && Ids(t.pending) == Ids(s.pending) && t.deadletter == s.deadletter
      && t.pending == Without(s.pending, job.id) + [Delayed(job, now, random)]
      && Delayed(job, now, random).nextAttemptAt > now
  {
    FailedIs(s, job, maxAttempts, now, random);
    BackoffPositive(job.attempts + 1, random);
    hide ComputeBackoff, Without, MarkFailed, Ids, QueueValid, Settles;
    StaysIn(s, job, Delayed(job, now, random));
  }

  lemma StaysIn(s: LocalState, job: Job, later: Job)
    requires QueueValid(s) && job in s.pending
    requires later.id == job.id && later.attempts == job.attempts + 1 < DEFAULT_MAX_ATTEMPTS
    ensures var t := s.(pending := Without(s.pending, job.id) + [later]);
      Settles(s, t, job) && Ids(t.pending) == Ids(s.pending)
  {
    InIds(s.pending, job);
    hide Without, Work, Ids, UniqueIds, InBudget;
    AckedLeaves(s, job);
    WorkWithout(s.pending, job);
    var rest := Without(s.pending, job.id);
    IdsAppend(rest, later);
    WorkAppend(rest, later);
  }

  lemma BackoffPositive(attempts: nat, random: real)
    requires 0.0 <= random < 1.0
    ensures ComputeBackoff(attempts, random) > 0
  {
    BackoffBounds(attempts, random);
    PowPositive(attempts);
  }

  lemma {:induction false} PowPositive(n: nat)
    ensures Pow2(n) >= 1
  {
    if n > 0 {
      PowPositive(n - 1);
    }
  }
}
