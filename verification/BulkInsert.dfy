/** Bulk insertion: rows are grouped into statements whose numbered placeholders stay
    within the parameter limit of one statement. Two writers use it, the MongoDB migration
    (rows already in memory) and the table copy (rows fetched through a cursor, each
    statement sent again while the connection seems lost). */
module BulkInsert {
  import opened Chunks
  import opened Wrappers

  const MAX_PARAMS := 65000
  const DEFAULT_BATCH_SIZE := 1000
  const MAX_RETRIES := 3

  datatype Value = Null | Value(text: string)

  type Row = seq<Value>

  // A multi-row INSERT: one list of placeholder numbers per row, and the values the
  // numbers 1, 2, ... stand for.
  datatype Statement = Statement(placeholders: seq<seq<nat>>, values: seq<Value>)

  ghost predicate Numbered(st: Statement) {
    forall i, j :: 0 <= i < |st.placeholders| && 0 <= j < |st.placeholders[i]|
      ==> 1 <= st.placeholders[i][j] <= |st.values|
  }

  /** The rows the database inserts when it runs the statement. */
  ghost function Inserted(st: Statement): (rows: seq<Row>)
    requires Numbered(st)
  {
    seq(|st.placeholders|, i requires 0 <= i < |st.placeholders| =>
      seq(|st.placeholders[i]|, j requires 0 <= j < |st.placeholders[i]| => st.values[st.placeholders[i][j] - 1]))
  }

  /** How many whole rows fit in one statement. */
  function RowsPerStatement(columns: nat): (n: nat)
    requires columns > 0
    ensures n * columns <= 65000 < (n + 1) * columns && (n == 0 <==> columns > 65000)
  {
    MAX_PARAMS / columns
  }

  ghost predicate Uniform(rows: seq<Row>, columns: nat) {
    forall i :: 0 <= i < |rows| ==> |rows[i]| == columns
  }

  /** Placeholders run 1, 2, ... through the rows: column j of row i is number
      i*columns+j+1 and stands for that row's j-th value. */
  ghost predicate RowMajor(st: Statement, rows: seq<Row>, columns: nat) {
    && |st.placeholders| == |rows| && |st.values| == |rows| * columns
    && forall i :: 0 <= i < |rows| ==> RowMajorAt(st, rows[i], i, columns)
  }

  ghost predicate RowMajorAt(st: Statement, row: Row, i: nat, columns: nat) {
    var offset := i * columns;
    && i < |st.placeholders| && offset + columns <= |st.values|
    && st.placeholders[i] == Consecutive(offset + 1, columns)
    && st.values[offset..offset + columns] == row
  }

  ghost function TotalLength(rows: seq<Row>): nat {
    if rows == [] then 0 else TotalLength(rows[..|rows| - 1]) + |rows[|rows| - 1]|
  }

  ghost function Consecutive(first: nat, count: nat): seq<nat> {
    seq(count, j requires 0 <= j < count => first + j)
  }

  /** The statement for a chunk, built one row at a time. */
  ghost function StatementFor(chunk: seq<Row>): Statement {
    if chunk == [] then Statement([], [])
    else
      var earlier, row := StatementFor(chunk[..|chunk| - 1]), chunk[|chunk| - 1];
      Statement(earlier.placeholders + [Consecutive(|earlier.values| + 1, |row|)], earlier.values + row)
  }

  /** Running the statement inserts exactly the chunk, also when rows differ in length. */
  lemma {:induction false} StatementInsertsChunk(chunk: seq<Row>)
    ensures Numbered(StatementFor(chunk)) && Inserted(StatementFor(chunk)) == chunk
    ensures |StatementFor(chunk).values| == TotalLength(chunk)
    ensures Flatten(StatementFor(chunk).placeholders) == Consecutive(1, |StatementFor(chunk).values|)
  {
    hide Numbered, Inserted, Consecutive, StatementFor, TotalLength, Flatten;
    if chunk == [] {
      EmptyStatement();
    } else {
      var init, row := chunk[..|chunk| - 1], chunk[|chunk| - 1];
      StatementInsertsChunk(init);
      OneMoreRow(StatementFor(init), row, init);
      assert init + [row] == chunk;
      StatementNext(init, row);
    }
  }

  lemma EmptyStatement()
    ensures var st := StatementFor([]);
      && Numbered(st) && Inserted(st) == [] && |st.values| == TotalLength([])
      && Flatten(st.placeholders) == Consecutive(1, |st.values|)
  {
  }

  lemma StatementNext(chunk: seq<Row>, row: Row)
    ensures var earlier := StatementFor(chunk);
      StatementFor(chunk + [row])
      == Statement(earlier.placeholders + [Consecutive(|earlier.values| + 1, |row|)], earlier.values + row)
    ensures TotalLength(chunk + [row]) == TotalLength(chunk) + |row|
  {
    hide Consecutive;
    assert (chunk + [row])[..|chunk|] == chunk;
  }

  /** A row's values follow the earlier ones and take the next numbers. */
  lemma OneMoreRow(earlier: Statement, row: Row, rows: seq<Row>)
    requires Numbered(earlier) && Inserted(earlier) == rows
    requires Flatten(earlier.placeholders) == Consecutive(1, |earlier.values|)
    ensures var numbers := Consecutive(|earlier.values| + 1, |row|);
      var st := Statement(earlier.placeholders + [numbers], earlier.values + row);
      Numbered(st) && Inserted(st) == rows + [row] && Flatten(st.placeholders) == Consecutive(1, |st.values|)
  {
    var numbers := Consecutive(|earlier.values| + 1, |row|);
    var st := Statement(earlier.placeholders + [numbers], earlier.values + row);
    FlattenAppend(earlier.placeholders, numbers);
    RowInserted(earlier, row, st);
    EarlierInserted(earlier, row, st);
    hide Flatten, Numbered;
    assert Consecutive(1, |earlier.values|) + numbers == Consecutive(1, |st.values|);
    assert |Inserted(st)| == |rows| + 1;
  }

  lemma RowInserted(earlier: Statement, row: Row, st: Statement)
    requires st == Statement(earlier.placeholders + [Consecutive(|earlier.values| + 1, |row|)], earlier.values + row)
    requires Numbered(earlier)
    ensures Numbered(st) && Inserted(st)[|earlier.placeholders|] == row
  {
    assert forall i :: 0 <= i < |earlier.placeholders| ==> st.placeholders[i] == earlier.placeholders[i];
  }

  lemma EarlierInserted(earlier: Statement, row: Row, st: Statement)
    requires st == Statement(earlier.placeholders + [Consecutive(|earlier.values| + 1, |row|)], earlier.values + row)
    requires Numbered(earlier) && Numbered(st)
    ensures forall i :: 0 <= i < |earlier.placeholders| ==> Inserted(st)[i] == Inserted(earlier)[i]
  {
    forall i | 0 <= i < |earlier.placeholders| ensures Inserted(st)[i] == Inserted(earlier)[i] {
      assert st.placeholders[i] == earlier.placeholders[i];
    }
  }

  lemma {:induction false} UniformLength(rows: seq<Row>, columns: nat)
    requires Uniform(rows, columns)
    ensures TotalLength(rows) == |rows| * columns
  {
    if rows != [] {
      UniformLength(rows[..|rows| - 1], columns);
      assert |rows| * columns == (|rows| - 1) * columns + columns;
    }
  }

  lemma RowMajorKept(st: Statement, longer: Statement, row: Row, i: nat, columns: nat)
    requires RowMajorAt(st, row, i, columns)
    requires st.placeholders <= longer.placeholders && st.values <= longer.values
    ensures RowMajorAt(longer, row, i, columns)
  {
  }

  lemma {:induction false} StatementIsRowMajor(chunk: seq<Row>, columns: nat)
    requires Uniform(chunk, columns)
    ensures RowMajor(StatementFor(chunk), chunk, columns)
  {
    StatementInsertsChunk(chunk);
    UniformLength(chunk, columns);
    hide Flatten, Inserted, TotalLength, Numbered;
    if chunk != [] {
      var init, row := chunk[..|chunk| - 1], chunk[|chunk| - 1];
      StatementIsRowMajor(init, columns);
      assert init + [row] == chunk;
      LastRowMajor(init, row, columns);
      hide StatementFor, RowMajorAt;
      var earlier, st := StatementFor(init), StatementFor(chunk);
      forall i | 0 <= i < |init| ensures RowMajorAt(st, chunk[i], i, columns) {
        assert RowMajorAt(earlier, init[i], i, columns);
        RowMajorKept(earlier, st, init[i], i, columns);
      }
    }
  }

  lemma LastRowMajor(init: seq<Row>, row: Row, columns: nat)
    requires |row| == columns && |StatementFor(init).values| == |init| * columns
    requires |StatementFor(init).placeholders| == |init|
    ensures var earlier, st := StatementFor(init), StatementFor(init + [row]);
      && RowMajorAt(st, row, |init|, columns)
      && earlier.placeholders <= st.placeholders && earlier.values <= st.values
      && |st.placeholders| == |init| + 1
  {
    StatementNext(init, row);
    hide StatementFor, Consecutive;
  }

  /** What the inner loops of both writers build. */
  method BuildStatement(chunk: seq<Row>) returns (st: Statement)
    ensures st == StatementFor(chunk)
    ensures Numbered(st) && Inserted(st) == chunk
  {
    var placeholders: seq<seq<nat>> := [];
    var values: seq<Value> := [];
    var paramIdx := 1;
    for r := 0 to |chunk|
      invariant Statement(placeholders, values) == StatementFor(chunk[..r])
      invariant paramIdx == |values| + 1
    {
      var rowPlaceholders: seq<nat> := [];
      ghost var before := values;
      for c := 0 to |chunk[r]|
        invariant values == before + chunk[r][..c]
        invariant rowPlaceholders == Consecutive(|before| + 1, c)
        invariant paramIdx == |values| + 1
      {
        rowPlaceholders := rowPlaceholders + [paramIdx];
        paramIdx := paramIdx + 1;
        values := values + [chunk[r][c]];
      }
      placeholders := placeholders + [rowPlaceholders];
      assert chunk[..r + 1][..r] == chunk[..r];
    }
    assert chunk[..|chunk|] == chunk;
    st := Statement(placeholders, values);
    StatementInsertsChunk(chunk);
  }

  // ------------------------------------------------------------ the database

  // What the writer hears: that the statement has run, an error that looks like a lost
  // connection, or another error.
  datatype Answer = Answered | Interrupted | Refused

  // A statement that was sent, the answer, and whether the database ran it. After an error
  // it may have run all the same.
  datatype Sending = Sending(st: Statement, answer: Answer, ran: bool)

  predicate Honest(s: Sending) {
    s.answer.Answered? ==> s.ran
  }

  class Connection {
    // Everything sent, in order.
    ghost var log: seq<Sending>

    method Query(st: Statement) returns (answer: Answer, ghost ran: bool)
      modifies this
      ensures log == old(log) + [Sending(st, answer, ran)] && Honest(Sending(st, answer, ran))
    {
      answer := *;
      ran := *;
      ran := ran || answer.Answered?;
      log := log + [Sending(st, answer, ran)];
    }

    /** Sends a statement up to four times, again only if the connection seems lost. */
    method QueryWithRetry(st: Statement) returns (ok: bool, ghost tries: seq<Sending>)
      modifies this
      ensures log == old(log) + tries && IsRound(tries, st) && (ok <==> EndsAnswered(tries))
    {
      tries := [];
      for attempt := 0 to MAX_RETRIES + 1
        invariant log == old(log) + tries && |tries| == attempt <= MAX_RETRIES
        invariant forall i :: 0 <= i < |tries| ==> tries[i].st == st && Honest(tries[i]) && tries[i].answer.Interrupted?
      {
        var answer;
        ghost var ran;
        answer, ran := Query(st);
        tries := tries + [Sending(st, answer, ran)];
        if answer.Answered? {
          return true, tries;
        }
        if answer.Refused? || attempt == MAX_RETRIES {
          return false, tries;
        }
      }
      assert false;
    }
  }

  ghost predicate EndsAnswered(tries: seq<Sending>) {
    tries != [] && tries[|tries| - 1].answer.Answered?
  }

  /** The sendings of one statement, one after the other: at most four; each but the last
      was interrupted, and the last only if it is the fourth. */
  ghost predicate IsRound(tries: seq<Sending>, st: Statement) {
    && 1 <= |tries| <= 4
    && (forall i :: 0 <= i < |tries| ==> tries[i].st == st && Honest(tries[i]))
    && (forall i :: 0 <= i < |tries| - 1 ==> tries[i].answer.Interrupted?)
    && (tries[|tries| - 1].answer.Interrupted? ==> |tries| == 4)
  }

  ghost predicate AllNumbered(log: seq<Sending>) {
    forall k :: 0 <= k < |log| ==> Numbered(log[k].st)
  }

  /** The rows of the statements that have run, in order. */
  ghost function InsertedByAll(log: seq<Sending>): seq<Row>
    requires AllNumbered(log)
  {
    if log == [] then []
    else
      var last := log[|log| - 1];
      InsertedByAll(log[..|log| - 1]) + if last.ran then Inserted(last.st) else []
  }

  /** What a run of a writer added: statements that insert exactly `rows`, in order. */
  ghost predicate Sent(before: seq<Sending>, after: seq<Sending>, rows: seq<Row>) {
    && before <= after
    && AllNumbered(after[|before|..]) && InsertedByAll(after[|before|..]) == rows
  }

  ghost predicate WithinLimit(before: seq<Sending>, after: seq<Sending>) {
    before <= after && forall k :: |before| <= k < |after| ==> |after[k].st.values| <= 65000
  }

  lemma NothingSent(before: seq<Sending>)
    ensures Sent(before, before, []) && WithinLimit(before, before)
  {
    assert before[|before|..] == [];
  }

  lemma UniformPart(rows: seq<Row>, columns: nat, start: nat, end: nat)
    requires Uniform(rows, columns) && start <= end <= |rows|
    ensures Uniform(rows[start..end], columns)
  {
  }

  lemma SendChunk(before: seq<Sending>, after: seq<Sending>, rows: seq<Row>, start: nat, end: nat, s: Sending)
    requires start <= end <= |rows| && Sent(before, after, rows[..start])
    requires Numbered(s.st) && Inserted(s.st) == rows[start..end]
    ensures Sent(before, after + [s], rows[..if s.ran then end else start])
  {
    var added := after[|before|..] + [s];
    assert (after + [s])[|before|..] == added;
    assert added[..|added| - 1] == after[|before|..];
    assert rows[..start] + rows[start..end] == rows[..end];
  }

  lemma ProductFits(n: nat, columns: nat, batchSize: nat)
    requires 1 <= columns && n <= batchSize <= RowsPerStatement(columns)
    ensures n * columns <= MAX_PARAMS
  {
    var fit := RowsPerStatement(columns);
    hide RowsPerStatement;
    ProductGrows(n, fit, columns);
  }

  lemma ProductGrows(a: nat, b: nat, c: nat)
    requires a <= b
    ensures a * c <= b * c
  {
  }

  lemma ChunkWithinLimit(chunk: seq<Row>, columns: nat, batchSize: nat)
    requires Uniform(chunk, columns) && |chunk| <= batchSize
    requires 1 <= columns && batchSize <= RowsPerStatement(columns)
    ensures |StatementFor(chunk).values| <= MAX_PARAMS
  {
    StatementInsertsChunk(chunk);
    UniformLength(chunk, columns);
    ProductFits(|chunk|, columns, batchSize);
  }

  // ---------------------------------------- rows in memory (MongoDB migration)

  /** A writer that stopped: the rows before `start` were sent, and those up to `end` as
      well if the statement that was reported to have failed had run. */
  ghost predicate StoppedAt(before: seq<Sending>, after: seq<Sending>, rows: seq<Row>, start: nat, end: nat) {
    && start < end <= |rows| && after != [] && !after[|after| - 1].answer.Answered?
    && Sent(before, after, rows[..if after[|after| - 1].ran then end else start])
  }

  class PendingTable {
    var columns: nat  // of the first row
    var rows: seq<Row>

    /** On success every row has been sent once, in order, and the table is empty. On
        failure a prefix has been sent and the rows are kept. Without columns nothing is
        sent and the rows stay. */
    method Flush(db: Connection) returns (ok: bool)
      requires rows != [] ==> |rows[0]| == columns
      modifies this`rows, db
      ensures old(rows) == [] || columns == 0 ==> ok && rows == old(rows) && db.log == old(db.log)
      ensures old(rows) != [] && columns > 0 && ok ==> rows == [] && Sent(old(db.log), db.log, old(rows))
      ensures old(db.log) <= db.log
      ensures ok <==> forall k :: |old(db.log)| <= k < |db.log| ==> db.log[k].answer.Answered?
      ensures !ok ==> rows == old(rows) && exists start, end :: StoppedAt(old(db.log), db.log, rows, start, end)
      ensures Uniform(old(rows), columns) && columns <= MAX_PARAMS ==> WithinLimit(old(db.log), db.log)
    {
      hide Numbered, Inserted, StatementFor, InsertedByAll;
      if rows == [] || columns == 0 {
        return true;
      }
      var batchSize := if RowsPerStatement(columns) > 1 then RowsPerStatement(columns) else 1;
      var start := 0;
      NothingSent(db.log);
      assert rows[..0] == [];
      while start < |rows|
        invariant 0 <= start <= |rows| && rows == old(rows)
        invariant Sent(old(db.log), db.log, rows[..start])
        invariant forall k :: |old(db.log)| <= k < |db.log| ==> db.log[k].answer.Answered?
        invariant Uniform(rows, columns) && columns <= MAX_PARAMS ==> WithinLimit(old(db.log), db.log)
      {
        var end := if start + batchSize < |rows| then start + batchSize else |rows|;
        var chunk := rows[start..end];
        var st := BuildStatement(chunk);
        if Uniform(rows, columns) && columns <= MAX_PARAMS {
          ChunkWithinLimit(chunk, columns, batchSize);
        }
        ghost var before := db.log;
        var answer;
        ghost var ran;
        answer, ran := db.Query(st);
        SendChunk(old(db.log), before, rows, start, end, Sending(st, answer, ran));
        if !answer.Answered? {
          assert StoppedAt(old(db.log), db.log, rows, start, end);
          return false;
        }
        start := end;
      }
      assert rows[..start] == rows;
      rows := [];
      return true;
    }
  }

  // --------------------------------------------- rows from a cursor (table copy)

  datatype SourceQuery = BeginCopy | DeclareCursor | FetchRows(count: nat) | CloseCursor | CommitCopy | RollbackCopy

  // A cursor over the rows that the source's snapshot holds.
  class Cursor {
    const rows: seq<Row>
    var at: nat
    ghost var faults: nat
    // What the source has been asked, in order.
    ghost var asked: seq<SourceQuery>

    constructor (rows: seq<Row>)
      ensures this.rows == rows && at == 0 && asked == []
    {
      this.rows := rows;
      at, asked := 0, [];
    }

    method Command(query: SourceQuery) returns (ok: bool)
      modifies this`faults, this`asked
      ensures faults == old(faults) + (if ok then 0 else 1) && asked == old(asked) + [query]
    {
      ok := *;
      faults := if ok then faults else faults + 1;
      asked := asked + [query];
    }

    /** A failure of the rollback is of no interest. */
    method Rollback()
      modifies this`asked
      ensures asked == old(asked) + [RollbackCopy]
    {
      asked := asked + [RollbackCopy];
    }

    method Fetch(count: nat) returns (batch: Option<seq<Row>>)
      requires at <= |rows|
      modifies this`at, this`faults, this`asked
      ensures asked == old(asked) + [FetchRows(count)]
      ensures at == if batch.None? then old(at) else if old(at) + count < |rows| then old(at) + count else |rows|
      ensures batch.Some? ==> batch.value == rows[old(at)..at]
      ensures faults == old(faults) + if batch.Some? then 0 else 1
    {
      var ok := Command(FetchRows(count));
      if !ok {
        return None;
      }
      var end := if at + count < |rows| then at + count else |rows|;
      batch := Some(rows[at..end]);
      at := end;
    }
  }

  // A batch of rows and the sendings of its statement.
  datatype Round = Round(chunk: seq<Row>, tries: seq<Sending>)

  /** The rounds of a copy: none after one that was given up. */
  ghost predicate AreRounds(rounds: seq<Round>) {
    && (forall i :: 0 <= i < |rounds| ==>
          rounds[i].chunk != [] && IsRound(rounds[i].tries, StatementFor(rounds[i].chunk)))
    && forall i :: 0 <= i < |rounds| - 1 ==> EndsAnswered(rounds[i].tries)
  }

  ghost predicate AllAnswered(rounds: seq<Round>) {
    forall i :: 0 <= i < |rounds| ==> EndsAnswered(rounds[i].tries)
  }

  ghost function AllTries(rounds: seq<Round>): seq<Sending> {
    if rounds == [] then [] else AllTries(rounds[..|rounds| - 1]) + rounds[|rounds| - 1].tries
  }

  ghost function RowsOf(rounds: seq<Round>): seq<Row> {
    if rounds == [] then [] else RowsOf(rounds[..|rounds| - 1]) + rounds[|rounds| - 1].chunk
  }

  /** The rounds that were answered: all but perhaps the last. */
  ghost function AnsweredPart(rounds: seq<Round>): seq<Round> {
    if rounds == [] || EndsAnswered(rounds[|rounds| - 1].tries) then rounds else rounds[..|rounds| - 1]
  }

  /** Batches of n rows, of which only the last may hold fewer. */
  ghost predicate BatchesOf(rounds: seq<Round>, n: nat) {
    forall i :: 0 <= i < |rounds| ==> |rounds[i].chunk| <= n && (i < |rounds| - 1 ==> |rounds[i].chunk| == n)
  }

  ghost predicate FullBatches(rounds: seq<Round>, n: nat) {
    forall i :: 0 <= i < |rounds| ==> |rounds[i].chunk| == n
  }

  lemma OneMoreBatch(rounds: seq<Round>, r: Round, n: nat)
    requires FullBatches(rounds, n) && |r.chunk| <= n
    ensures BatchesOf(rounds + [r], n) && (|r.chunk| == n ==> FullBatches(rounds + [r], n))
  {
  }

  lemma OneMoreRound(rounds: seq<Round>, r: Round)
    ensures AllTries(rounds + [r]) == AllTries(rounds) + r.tries && RowsOf(rounds + [r]) == RowsOf(rounds) + r.chunk
    ensures AllAnswered(rounds) && EndsAnswered(r.tries) ==> AllAnswered(rounds + [r])
    ensures AllAnswered(rounds) ==> AnsweredPart(rounds + [r]) == if EndsAnswered(r.tries) then rounds + [r] else rounds
    ensures AllAnswered(rounds + [r]) ==> EndsAnswered(r.tries)
    ensures AreRounds(rounds) && AllAnswered(rounds) && r.chunk != [] && IsRound(r.tries, StatementFor(r.chunk))
            ==> AreRounds(rounds + [r])
  {
    hide IsRound, EndsAnswered, StatementFor;
    assert (rounds + [r])[..|rounds|] == rounds;
    assert (rounds + [r])[|rounds|] == r;
  }

  lemma NoRounds()
    ensures AreRounds([]) && AllAnswered([]) && AllTries([]) == [] && RowsOf([]) == [] && AnsweredPart([]) == []
    ensures forall n :: BatchesOf([], n) && FullBatches([], n)
  {
  }

  lemma RoundWithinLimit(before: seq<Sending>, after: seq<Sending>, tries: seq<Sending>, st: Statement)
    requires WithinLimit(before, after) && IsRound(tries, st) && |st.values| <= MAX_PARAMS
    ensures WithinLimit(before, after + tries)
  {
  }

  /** The whole conversation with the source: one transaction around the fetches, committed
      if all went well and rolled back otherwise. */
  ghost predicate IsConversation(asked: seq<SourceQuery>, batchSize: nat, ok: bool) {
    && |asked| >= 2 && asked[0] == BeginCopy
    && if ok then
         && |asked| >= 4 && asked[1] == DeclareCursor && OnlyFetches(asked[2..|asked| - 2], batchSize)
         && asked[|asked| - 2] == CloseCursor && asked[|asked| - 1] == CommitCopy
       else asked[|asked| - 1] == RollbackCopy && CommitCopy !in asked[..|asked| - 2]
  }

  ghost predicate OnlyFetches(asked: seq<SourceQuery>, batchSize: nat) {
    forall q :: q in asked ==> q == FetchRows(batchSize)
  }

  /** What has been asked by the time the transaction is over, one way or the other. */
  ghost predicate IsTransaction(asked: seq<SourceQuery>, batchSize: nat, ok: bool) {
    && |asked| >= 1 && asked[0] == BeginCopy && CommitCopy !in asked[..|asked| - 1]
    && (ok ==>
          && |asked| >= 4 && asked[1] == DeclareCursor && OnlyFetches(asked[2..|asked| - 2], batchSize)
          && asked[|asked| - 2] == CloseCursor && asked[|asked| - 1] == CommitCopy)
  }

  lemma TransactionSoFar(fetches: seq<SourceQuery>, batchSize: nat)
    requires OnlyFetches(fetches, batchSize)
    ensures IsTransaction([BeginCopy], batchSize, false) && IsTransaction([BeginCopy, DeclareCursor], batchSize, false)
    ensures IsTransaction([BeginCopy, DeclareCursor] + fetches, batchSize, false)
    ensures IsTransaction([BeginCopy, DeclareCursor] + fetches + [CloseCursor], batchSize, false)
    ensures var all := [BeginCopy, DeclareCursor] + fetches + [CloseCursor, CommitCopy];
      IsTransaction(all, batchSize, true) && IsTransaction(all, batchSize, false)
  {
    var all := [BeginCopy, DeclareCursor] + fetches + [CloseCursor, CommitCopy];
    assert all[2..|all| - 2] == fetches;
    var some, more := [BeginCopy, DeclareCursor] + fetches, [BeginCopy, DeclareCursor] + fetches + [CloseCursor];
    assert CommitCopy !in more;
    assert all[..|all| - 1] == more;
    assert forall q :: q in more[..|more| - 1] ==> q in more;
    assert forall q :: q in some[..|some| - 1] ==> q in more;
  }

  lemma ThenRolledBack(asked: seq<SourceQuery>, batchSize: nat)
    ensures IsTransaction(asked, batchSize, true) ==> IsConversation(asked, batchSize, true)
    ensures IsTransaction(asked, batchSize, false) ==> IsConversation(asked + [RollbackCopy], batchSize, false)
  {
    var all := asked + [RollbackCopy];
    hide OnlyFetches;
    assert |asked| >= 1 ==> all[..|all| - 2] == asked[..|asked| - 1] && all[0] == asked[0];
    assert all[|all| - 1] == RollbackCopy;
  }

  method BatchSizeFor(columns: nat) returns (batchSize: nat)
    requires columns > 0
    ensures batchSize == if columns <= 65 then 1000 else 65000 / columns
    ensures batchSize <= RowsPerStatement(columns) && (batchSize == 0 <==> columns > 65000)
  {
    var fit := RowsPerStatement(columns);
    batchSize := if DEFAULT_BATCH_SIZE < fit then DEFAULT_BATCH_SIZE else fit;
    if columns <= 65 {
      ProductGrows(columns, 65, 1001);
    }
  }

  /** Copies a table of `columns` columns, in rounds within the parameter limit. On success
      the rounds are all answered and hold every row once, in order; what the table then
      holds depends on answers that were lost, see CopiedOnceIff. This is so for 1 to 65000
      columns, which covers every table the database can hold; beyond that the fetch size
      would be zero and nothing would be copied. */
  method CopyTableData(source: Cursor, columns: nat, target: Connection)
    returns (totalCopied: nat, ok: bool, ghost rounds: seq<Round>)
    requires Uniform(source.rows, columns) && source.at == 0
    modifies source, target
    ensures AreRounds(rounds) && target.log == old(target.log) + AllTries(rounds)
    ensures RowsOf(rounds) <= source.rows && totalCopied == |RowsOf(AnsweredPart(rounds))|
    ensures source.faults >= old(source.faults)
    ensures ok <==> AllAnswered(rounds) && source.faults == old(source.faults)
    ensures ok && 1 <= columns <= 65000 ==> RowsOf(rounds) == source.rows
    ensures columns > 0 ==> WithinLimit(old(target.log), target.log)
    ensures columns == 0 || columns > 65000 ==> rounds == []
    ensures columns == 0 ==> ok && source.asked == old(source.asked)
    ensures columns > 0 ==>
              var batchSize := if columns <= 65 then 1000 else 65000 / columns;
              && BatchesOf(rounds, batchSize) && old(source.asked) <= source.asked
              && IsConversation(source.asked[|old(source.asked)|..], batchSize, ok)
  {
    hide *;
    totalCopied, ok, rounds := 0, true, [];
    NoRounds();
    NothingSent(target.log);
    if columns == 0 {
      return;
    }
    var batchSize := BatchSizeFor(columns);
    totalCopied, ok, rounds := CopyInTransaction(source, columns, target, batchSize);
    ghost var asked := source.asked[|old(source.asked)|..];
    ThenRolledBack(asked, batchSize);
    if !ok {
      source.Rollback();
      assert source.asked[|old(source.asked)|..] == asked + [RollbackCopy];
    }
  }

  method CopyInTransaction(source: Cursor, columns: nat, target: Connection, batchSize: nat)
    returns (totalCopied: nat, ok: bool, ghost rounds: seq<Round>)
    requires Uniform(source.rows, columns) && source.at == 0
    requires columns > 0 && batchSize <= RowsPerStatement(columns)
    modifies source, target
    ensures AreRounds(rounds) && target.log == old(target.log) + AllTries(rounds)
    ensures RowsOf(rounds) <= source.rows && totalCopied == |RowsOf(AnsweredPart(rounds))|
    ensures source.faults >= old(source.faults)
    ensures ok <==> AllAnswered(rounds) && source.faults == old(source.faults)
    ensures ok && batchSize > 0 ==> RowsOf(rounds) == source.rows
    ensures WithinLimit(old(target.log), target.log) && (batchSize == 0 ==> rounds == [])
    ensures BatchesOf(rounds, batchSize) && old(source.asked) <= source.asked
    ensures IsTransaction(source.asked[|old(source.asked)|..], batchSize, ok)
  {
    hide *;
    ghost var start := source.asked;
    totalCopied, ok, rounds := 0, false, [];
    NoRounds();
    NothingSent(target.log);
    NoFetches(batchSize);
    TransactionSoFar([], batchSize);
    var begun := source.Command(BeginCopy);
    AskedSince(start, [BeginCopy]);
    if !begun {
      return;
    }
    var declared := source.Command(DeclareCursor);
    assert source.asked == start + [BeginCopy, DeclareCursor];
    AskedSince(start, [BeginCopy, DeclareCursor]);
    if !declared {
      return;
    }
    totalCopied, ok, rounds := CopyBatches(source, columns, target, batchSize);
    ghost var fetches := source.asked[|start| + 2..];
    TransactionSoFar(fetches, batchSize);
    assert source.asked == start + ([BeginCopy, DeclareCursor] + fetches);
    AskedSince(start, [BeginCopy, DeclareCursor] + fetches);
    if ok {
      ok := EndTransaction(source, start, fetches);
    }
  }

  method EndTransaction(source: Cursor, ghost start: seq<SourceQuery>, ghost fetches: seq<SourceQuery>)
    returns (ok: bool)
    requires source.asked == start + ([BeginCopy, DeclareCursor] + fetches)
    modifies source`faults, source`asked
    ensures source.faults >= old(source.faults) && (ok <==> source.faults == old(source.faults))
    ensures start <= source.asked
    ensures var asked := source.asked[|start|..];
      && (asked == [BeginCopy, DeclareCursor] + fetches + [CloseCursor, CommitCopy]
          || (!ok && asked == [BeginCopy, DeclareCursor] + fetches + [CloseCursor]))
  {
    ok := source.Command(CloseCursor);
    AskedSince(start, [BeginCopy, DeclareCursor] + fetches + [CloseCursor]);
    assert source.asked == start + ([BeginCopy, DeclareCursor] + fetches + [CloseCursor]);
    if ok {
      ok := source.Command(CommitCopy);
      AskedSince(start, [BeginCopy, DeclareCursor] + fetches + [CloseCursor, CommitCopy]);
      assert source.asked == start + ([BeginCopy, DeclareCursor] + fetches + [CloseCursor, CommitCopy]);
    }
  }

  lemma AskedSince(start: seq<SourceQuery>, asked: seq<SourceQuery>)
    ensures start <= start + asked && (start + asked)[|start|..] == asked
  {
  }

  lemma NoFetches(batchSize: nat)
    ensures OnlyFetches([], batchSize)
  {
  }

  lemma OneMoreFetch(asked: seq<SourceQuery>, batchSize: nat)
    requires OnlyFetches(asked, batchSize)
    ensures OnlyFetches(asked + [FetchRows(batchSize)], batchSize)
  {
  }

  /** The loop over the cursor. */
  method CopyBatches(source: Cursor, columns: nat, target: Connection, batchSize: nat)
    returns (totalCopied: nat, ok: bool, ghost rounds: seq<Round>)
    requires Uniform(source.rows, columns) && source.at == 0
    requires columns > 0 && batchSize <= RowsPerStatement(columns)
    modifies source, target
    ensures AreRounds(rounds) && target.log == old(target.log) + AllTries(rounds)
    ensures RowsOf(rounds) <= source.rows && totalCopied == |RowsOf(AnsweredPart(rounds))|
    ensures source.faults >= old(source.faults)
    ensures ok <==> AllAnswered(rounds) && source.faults == old(source.faults)
    ensures ok && batchSize > 0 ==> RowsOf(rounds) == source.rows
    ensures WithinLimit(old(target.log), target.log) && (batchSize == 0 ==> rounds == [])
    ensures BatchesOf(rounds, batchSize) && old(source.asked) <= source.asked
    ensures OnlyFetches(source.asked[|old(source.asked)|..], batchSize)
  {
    hide *;
    totalCopied, ok, rounds := 0, true, [];
    NoRounds();
    NothingSent(target.log);
    NoFetches(batchSize);
    assert source.rows[..0] == [] && source.asked[|source.asked|..] == [];
    while true
      invariant totalCopied == source.at <= |source.rows| && ok && source.faults == old(source.faults)
      invariant AreRounds(rounds) && AllAnswered(rounds) && target.log == old(target.log) + AllTries(rounds)
      invariant RowsOf(rounds) == source.rows[..totalCopied] && AnsweredPart(rounds) == rounds
      invariant WithinLimit(old(target.log), target.log) && (batchSize == 0 ==> rounds == [])
      invariant BatchesOf(rounds, batchSize) && FullBatches(rounds, batchSize)
      invariant old(source.asked) <= source.asked && OnlyFetches(source.asked[|old(source.asked)|..], batchSize)
      decreases |source.rows| - totalCopied
    {
      ghost var fetched := source.asked[|old(source.asked)|..];
      OneMoreFetch(fetched, batchSize);
      var batch := source.Fetch(batchSize);
      assert source.asked[|old(source.asked)|..] == fetched + [FetchRows(batchSize)];
      if batch.None? {
        return totalCopied, false, rounds;
      }
      var rows := batch.value;
      if |rows| == 0 {
        break;
      }
      var st := BuildStatement(rows);
      UniformPart(source.rows, columns, totalCopied, source.at);
      ChunkWithinLimit(rows, columns, batchSize);
      ghost var before := target.log;
      var sent;
      ghost var tries;
      sent, tries := target.QueryWithRetry(st);
      RoundWithinLimit(old(target.log), before, tries, st);
      OneMoreRound(rounds, Round(rows, tries));
      OneMoreBatch(rounds, Round(rows, tries), batchSize);
      assert source.rows[..totalCopied] + rows == source.rows[..source.at];
      rounds := rounds + [Round(rows, tries)];
      if !sent {
        return totalCopied, false, rounds;
      }
      totalCopied := totalCopied + |rows|;
      if |rows| < batchSize {
        break;
      }
    }
  }

  // ------------------------------------------- what the table holds after a copy

  // `clash` says which rows may not stand beside each other, by the unique constraints of
  // the table. A row clashes with itself if some unique constraint covers it without a null.

  /** INSERT ... ON CONFLICT DO NOTHING. */
  ghost function Put(table: seq<Row>, rows: seq<Row>, clash: (Row, Row) -> bool): seq<Row> {
    if rows == [] then table
    else
      var earlier, row := Put(table, rows[..|rows| - 1], clash), rows[|rows| - 1];
      if exists t :: t in earlier && clash(t, row) then earlier else earlier + [row]
  }

  ghost function TableAfter(table: seq<Row>, log: seq<Sending>, clash: (Row, Row) -> bool): seq<Row>
    requires AllNumbered(log)
  {
    if log == [] then table
    else
      var earlier, last := TableAfter(table, log[..|log| - 1], clash), log[|log| - 1];
      if last.ran then Put(earlier, Inserted(last.st), clash) else earlier
  }

  /** No row clashes with a row at another place. */
  ghost predicate Apart(rows: seq<Row>, clash: (Row, Row) -> bool) {
    forall i, j :: 0 <= i < |rows| && 0 <= j < |rows| && i != j ==> !clash(rows[i], rows[j])
  }

  /** The rows that may stand in the table more than once. */
  ghost function Loose(rows: seq<Row>, clash: (Row, Row) -> bool): seq<Row> {
    if rows == [] then []
    else
      var last := rows[|rows| - 1];
      Loose(rows[..|rows| - 1], clash) + if clash(last, last) then [] else [last]
  }

  ghost function Copies(rows: seq<Row>, k: nat): seq<Row> {
    if k == 0 then [] else Copies(rows, k - 1) + rows
  }

  ghost function Runs(tries: seq<Sending>): nat {
    if tries == [] then 0 else Runs(tries[..|tries| - 1]) + if tries[|tries| - 1].ran then 1 else 0
  }

  ghost predicate AllIn(table: seq<Row>, rows: seq<Row>) {
    forall t :: t in table ==> t in rows
  }

  lemma PutOneMore(table: seq<Row>, rows: seq<Row>, clash: (Row, Row) -> bool)
    requires rows != []
    ensures var earlier, row := Put(table, rows[..|rows| - 1], clash), rows[|rows| - 1];
      Put(table, rows, clash) == if exists t :: t in earlier && clash(t, row) then earlier else earlier + [row]
  {
  }

  /** Rows that are new to the table are all put into it. */
  lemma {:induction false} FirstPut(table: seq<Row>, all: seq<Row>, n: nat, chunk: seq<Row>, clash: (Row, Row) -> bool)
    requires Apart(all, clash) && n + |chunk| <= |all| && chunk == all[n..n + |chunk|] && AllIn(table, all[..n])
    ensures Put(table, chunk, clash) == table + chunk
  {
    if chunk == [] {
      assert table + chunk == table;
    } else {
      var init, row := chunk[..|chunk| - 1], chunk[|chunk| - 1];
      FirstPut(table, all, n, init, clash);
      NewRow(table, all, n, init, row, clash);
      PutOneMore(table, chunk, clash);
      assert table + init + [row] == table + chunk;
    }
  }

  lemma NewRow(table: seq<Row>, all: seq<Row>, n: nat, init: seq<Row>, row: Row, clash: (Row, Row) -> bool)
    requires Apart(all, clash) && n + |init| < |all| && init == all[n..n + |init|] && AllIn(table, all[..n])
    requires row == all[n + |init|]
    ensures forall t :: t in table + init ==> !clash(t, row)
  {
    forall t | t in table + init ensures !clash(t, row) {
      if t in table {
        var j :| 0 <= j < n && all[..n][j] == t;
        assert all[j] == t;
      } else {
        var j :| 0 <= j < |init| && init[j] == t;
        assert all[n + j] == t;
      }
    }
  }

  /** Of rows that are there already, just the loose ones are put into it again. */
  lemma {:induction false} AgainPut(table: seq<Row>, all: seq<Row>, n: nat, chunk: seq<Row>, clash: (Row, Row) -> bool)
    requires Apart(all, clash) && n + |chunk| <= |all| && chunk == all[n..n + |chunk|]
    requires AllIn(table, all) && AllIn(chunk, table)
    ensures Put(table, chunk, clash) == table + Loose(chunk, clash)
  {
    hide Put, Apart;
    if chunk == [] {
      PutNothing(table, clash);
      assert table + Loose(chunk, clash) == table;
    } else {
      var init, row := chunk[..|chunk| - 1], chunk[|chunk| - 1];
      assert AllIn(init, table) && row in table;
      AgainPut(table, all, n, init, clash);
      LooseAreIn(init, clash);
      var loose := Loose(init, clash);
      assert Loose(chunk, clash) == loose + if clash(row, row) then [] else [row];
      hide Loose;
      KnownRow(table + loose, all, n + |init|, clash);
      PutOneMore(table, chunk, clash);
      assert table + loose + [row] == table + (loose + [row]);
      assert table + loose == table + (loose + []);
    }
  }

  lemma PutNothing(table: seq<Row>, clash: (Row, Row) -> bool)
    ensures Put(table, [], clash) == table
  {
  }

  lemma KnownRow(there: seq<Row>, all: seq<Row>, i: nat, clash: (Row, Row) -> bool)
    requires Apart(all, clash) && i < |all| && AllIn(there, all) && all[i] in there
    ensures (exists t :: t in there && clash(t, all[i])) <==> clash(all[i], all[i])
  {
    forall t | t in there && clash(t, all[i]) ensures clash(all[i], all[i]) {
      assert t in all;
      var j :| 0 <= j < |all| && all[j] == t;
      assert j == i;
    }
  }

  lemma {:induction false} LooseAreIn(rows: seq<Row>, clash: (Row, Row) -> bool)
    ensures AllIn(Loose(rows, clash), rows)
    ensures Loose(rows, clash) == [] <==> forall row :: row in rows ==> clash(row, row)
  {
    if rows != [] {
      LooseAreIn(rows[..|rows| - 1], clash);
      assert rows == rows[..|rows| - 1] + [rows[|rows| - 1]];
    }
  }

  /** What a round adds to the table. */
  ghost function Added(r: Round, clash: (Row, Row) -> bool): seq<Row> {
    AddedBy(r.chunk, Runs(r.tries), clash)
  }

  lemma {:induction false} TableOfTwo(table: seq<Row>, a: seq<Sending>, b: seq<Sending>, clash: (Row, Row) -> bool)
    requires AllNumbered(a) && AllNumbered(b)
    ensures AllNumbered(a + b) && TableAfter(table, a + b, clash) == TableAfter(TableAfter(table, a, clash), b, clash)
  {
    hide Put, Inserted, Numbered;
    if b == [] {
      assert a + b == a;
    } else {
      assert (a + b)[..|a + b| - 1] == a + b[..|b| - 1];
      TableOfTwo(table, a, b[..|b| - 1], clash);
    }
  }

  ghost predicate AllOf(tries: seq<Sending>, st: Statement) {
    forall i :: 0 <= i < |tries| ==> tries[i].st == st
  }

  lemma NumberedTries(tries: seq<Sending>, chunk: seq<Row>)
    requires AllOf(tries, StatementFor(chunk))
    ensures AllNumbered(tries)
  {
    StatementInsertsChunk(chunk);
  }

  /** A statement that runs k times puts its rows into the table once, and the loose ones
      among them k times. */
  lemma {:induction false} TableOfRound(table: seq<Row>, all: seq<Row>, n: nat, r: Round, clash: (Row, Row) -> bool)
    requires Apart(all, clash) && n + |r.chunk| <= |all| && r.chunk == all[n..n + |r.chunk|]
    requires AllIn(table, all[..n]) && AllOf(r.tries, StatementFor(r.chunk))
    ensures AllNumbered(r.tries)
    ensures TableAfter(table, r.tries, clash) == table + Added(r, clash)
    decreases |r.tries|
  {
    hide Put, Inserted, AddedBy, Apart, AllIn, StatementFor, Numbered;
    NumberedTries(r.tries, r.chunk);
    AddedByNext(r.chunk, 0, clash);
    if r.tries == [] {
      assert table + [] == table;
    } else {
      var last := r.tries[|r.tries| - 1];
      var earlier := Round(r.chunk, r.tries[..|r.tries| - 1]);
      NumberedTries(earlier.tries, r.chunk);
      TableOfRound(table, all, n, earlier, clash);
      if last.ran {
        StatementInsertsChunk(r.chunk);
        RunOnceMore(table, all, n, r.chunk, Runs(earlier.tries), clash);
      }
    }
  }

  ghost function AddedBy(chunk: seq<Row>, runs: nat, clash: (Row, Row) -> bool): seq<Row> {
    if runs == 0 then [] else chunk + Copies(Loose(chunk, clash), runs - 1)
  }

  lemma RunOnceMore(table: seq<Row>, all: seq<Row>, n: nat, chunk: seq<Row>, runs: nat, clash: (Row, Row) -> bool)
    requires Apart(all, clash) && n + |chunk| <= |all| && chunk == all[n..n + |chunk|] && AllIn(table, all[..n])
    ensures Put(table + AddedBy(chunk, runs, clash), chunk, clash) == table + AddedBy(chunk, runs + 1, clash)
  {
    var loose := Loose(chunk, clash);
    AddedByNext(chunk, runs, clash);
    hide *;
    if runs == 0 {
      FirstPut(table, all, n, chunk, clash);
      assert table + [] == table;
    } else {
      var extra := Copies(loose, runs - 1);
      CopiesAreIn(loose, runs - 1);
      LooseAreIn(chunk, clash);
      InLongerTable(table, all, n, chunk, loose, extra);
      AgainPut(table + (chunk + extra), all, n, chunk, clash);
      Regroup(table, chunk, extra, loose);
    }
  }

  lemma AddedByNext(chunk: seq<Row>, runs: nat, clash: (Row, Row) -> bool)
    ensures AddedBy(chunk, 0, clash) == [] && AddedBy(chunk, 1, clash) == chunk
    ensures runs > 0 ==> AddedBy(chunk, runs, clash) == chunk + Copies(Loose(chunk, clash), runs - 1)
    ensures runs > 0 ==>
      AddedBy(chunk, runs + 1, clash) == chunk + (Copies(Loose(chunk, clash), runs - 1) + Loose(chunk, clash))
  {
    hide Loose;
    assert chunk + [] == chunk;
  }

  lemma Regroup(a: seq<Row>, b: seq<Row>, c: seq<Row>, d: seq<Row>)
    ensures a + (b + c) + d == a + (b + (c + d))
  {
  }

  lemma InLongerTable(table: seq<Row>, all: seq<Row>, n: nat, chunk: seq<Row>, loose: seq<Row>, extra: seq<Row>)
    requires n + |chunk| <= |all| && chunk == all[n..n + |chunk|] && AllIn(table, all[..n])
    requires AllIn(extra, loose) && AllIn(loose, chunk)
    ensures AllIn(chunk, table + (chunk + extra)) && AllIn(table + (chunk + extra), all)
  {
    assert forall t :: t in all[..n] ==> t in all;
    assert forall t :: t in all[n..n + |chunk|] ==> t in all;
  }

  lemma {:induction false} CopiesAreIn(rows: seq<Row>, k: nat)
    ensures AllIn(Copies(rows, k), rows) && |Copies(rows, k)| == k * |rows|
  {
    if k > 0 {
      CopiesAreIn(rows, k - 1);
      assert k * |rows| == (k - 1) * |rows| + |rows|;
    }
  }

  ghost function AllAdded(rounds: seq<Round>, clash: (Row, Row) -> bool): seq<Row> {
    if rounds == [] then [] else AllAdded(rounds[..|rounds| - 1], clash) + Added(rounds[|rounds| - 1], clash)
  }

  ghost predicate SameStatements(rounds: seq<Round>) {
    forall i :: 0 <= i < |rounds| ==> AllOf(rounds[i].tries, StatementFor(rounds[i].chunk))
  }

  /** What a copy leaves in the table, whatever was interrupted and wherever it stopped. */
  lemma {:induction false} TableAfterCopy(table: seq<Row>, rounds: seq<Round>, all: seq<Row>, clash: (Row, Row) -> bool)
    requires SameStatements(rounds) && Apart(all, clash) && table + RowsOf(rounds) <= all
    ensures AllNumbered(AllTries(rounds))
    ensures TableAfter(table, AllTries(rounds), clash) == table + AllAdded(rounds, clash)
    ensures AllIn(table + AllAdded(rounds, clash), table + RowsOf(rounds))
  {
    NoRounds();
    if rounds == [] {
      assert AllAdded([], clash) == [] && AllTries([]) == [] && table + [] == table;
    } else {
      var init, r := rounds[..|rounds| - 1], rounds[|rounds| - 1];
      assert AllOf(r.tries, StatementFor(r.chunk)) && SameStatements(init);
      assert AllTries(rounds) == AllTries(init) + r.tries && RowsOf(rounds) == RowsOf(init) + r.chunk;
      assert AllAdded(rounds, clash) == AllAdded(init, clash) + Added(r, clash);
      hide *;
      var there, before := table + AllAdded(init, clash), table + RowsOf(init);
      Parts(table, RowsOf(init), r.chunk, all);
      TableAfterCopy(table, init, all, clash);
      TableOfRound(there, all, |before|, r, clash);
      TableOfTwo(table, AllTries(init), r.tries, clash);
      AddedIsIn(r, clash);
      InParts(table, AllAdded(init, clash), Added(r, clash), RowsOf(init), r.chunk);
    }
  }

  lemma Parts(table: seq<Row>, earlier: seq<Row>, chunk: seq<Row>, all: seq<Row>)
    requires table + (earlier + chunk) <= all
    ensures var n := |table + earlier|;
      table + earlier <= all && n + |chunk| <= |all| && all[..n] == table + earlier && chunk == all[n..n + |chunk|]
  {
    assert table + (earlier + chunk) == table + earlier + chunk;
  }

  lemma InParts(table: seq<Row>, added: seq<Row>, more: seq<Row>, earlier: seq<Row>, chunk: seq<Row>)
    requires AllIn(table + added, table + earlier) && AllIn(more, chunk)
    ensures table + added + more == table + (added + more)
    ensures AllIn(table + (added + more), table + (earlier + chunk))
  {
    assert table + added + more == table + (added + more);
    assert table + earlier + chunk == table + (earlier + chunk);
  }

  lemma AddedIsIn(r: Round, clash: (Row, Row) -> bool)
    ensures AllIn(Added(r, clash), r.chunk)
  {
    CopiesAreIn(Loose(r.chunk, clash), if Runs(r.tries) == 0 then 0 else Runs(r.tries) - 1);
    LooseAreIn(r.chunk, clash);
  }

  /** No answer was lost, or no row of the batch can stand in the table twice. */
  ghost predicate Harmless(r: Round, clash: (Row, Row) -> bool) {
    || (forall i :: 0 <= i < |r.tries| && r.tries[i].ran ==> r.tries[i].answer.Answered?)
    || (forall row :: row in r.chunk ==> clash(row, row))
  }

  lemma {:induction false} RunsOnceIff(tries: seq<Sending>, n: nat)
    requires n <= |tries| && forall i :: 0 <= i < |tries| ==> Honest(tries[i])
    requires forall i :: 0 <= i < n ==> !tries[i].answer.Answered?
    ensures Runs(tries[..n]) == 0 <==> forall i :: 0 <= i < n ==> !tries[i].ran
  {
    if n > 0 {
      assert tries[..n][..n - 1] == tries[..n - 1];
      RunsOnceIff(tries, n - 1);
    }
  }

  /** An answered round runs its statement, and once more for each lost answer. */
  lemma AnsweredRuns(r: Round)
    requires IsRound(r.tries, StatementFor(r.chunk)) && EndsAnswered(r.tries)
    ensures Runs(r.tries) >= 1
    ensures Runs(r.tries) == 1 <==> forall i :: 0 <= i < |r.tries| && r.tries[i].ran ==> r.tries[i].answer.Answered?
  {
    hide StatementFor;
    RunsOnceIff(r.tries, |r.tries| - 1);
  }

  lemma AddedIs(r: Round, clash: (Row, Row) -> bool)
    ensures Added(r, clash)
            == if Runs(r.tries) == 0 then [] else r.chunk + Copies(Loose(r.chunk, clash), Runs(r.tries) - 1)
    ensures Runs(r.tries) == 1 ==> Added(r, clash) == r.chunk
  {
    assert r.chunk + [] == r.chunk;
  }

  lemma HarmlessIff(r: Round, clash: (Row, Row) -> bool)
    requires IsRound(r.tries, StatementFor(r.chunk)) && EndsAnswered(r.tries)
    ensures Harmless(r, clash) <==> Runs(r.tries) == 1 || Loose(r.chunk, clash) == []
  {
    AnsweredRuns(r);
    LooseAreIn(r.chunk, clash);
  }

  lemma AddedLength(r: Round, clash: (Row, Row) -> bool)
    requires IsRound(r.tries, StatementFor(r.chunk)) && EndsAnswered(r.tries)
    ensures |Added(r, clash)| >= |r.chunk|
    ensures |Added(r, clash)| == |r.chunk| <==> Harmless(r, clash)
    ensures Harmless(r, clash) ==> Added(r, clash) == r.chunk
  {
    AnsweredRuns(r);
    var loose, again := Loose(r.chunk, clash), Runs(r.tries) - 1;
    CopiesAreIn(loose, again);
    LooseAreIn(r.chunk, clash);
    hide *;
    AddedIs(r, clash);
    assert again * |loose| == 0 <==> again == 0 || |loose| == 0;
    HarmlessIff(r, clash);
  }

  /** In a table without conflicts to begin with, a copy in answered rounds puts exactly
      its rows, each once and in order, if and only if every answer that was lost is
      harmless. */
  lemma CopiedOnceIff(table: seq<Row>, rounds: seq<Round>, clash: (Row, Row) -> bool)
    requires AreRounds(rounds) && AllAnswered(rounds) && Apart(table + RowsOf(rounds), clash)
    ensures AllNumbered(AllTries(rounds))
    ensures TableAfter(table, AllTries(rounds), clash) == table + RowsOf(rounds)
            <==> forall i :: 0 <= i < |rounds| ==> Harmless(rounds[i], clash)
  {
    TableAfterCopy(table, rounds, table + RowsOf(rounds), clash);
    AllAddedIff(rounds, clash);
    if table + AllAdded(rounds, clash) == table + RowsOf(rounds) {
      assert |AllAdded(rounds, clash)| == |RowsOf(rounds)|;
    }
  }

  lemma {:induction false} AllAddedIff(rounds: seq<Round>, clash: (Row, Row) -> bool)
    requires AreRounds(rounds) && AllAnswered(rounds)
    ensures |AllAdded(rounds, clash)| >= |RowsOf(rounds)|
    ensures |AllAdded(rounds, clash)| == |RowsOf(rounds)|
            <==> forall i :: 0 <= i < |rounds| ==> Harmless(rounds[i], clash)
    ensures (forall i :: 0 <= i < |rounds| ==> Harmless(rounds[i], clash)) ==> AllAdded(rounds, clash) == RowsOf(rounds)
  {
    hide Harmless, Added, IsRound, EndsAnswered, StatementFor;
    if rounds != [] {
      var init, r := rounds[..|rounds| - 1], rounds[|rounds| - 1];
      AllAddedIff(init, clash);
      AddedLength(r, clash);
      assert forall i :: 0 <= i < |init| ==> init[i] == rounds[i];
    }
  }

  // The constraints of a table that has none.
  ghost function NoConstraint(): (Row, Row) -> bool {
    (a, b) => false
  }

  /** In particular, where nothing forbids a row to stand twice, a batch whose first answer
      is lost is there twice after the second attempt. */
  lemma LostAnswerDoubles(chunk: seq<Row>)
    ensures var st := StatementFor(chunk);
      var tries := [Sending(st, Interrupted, true), Sending(st, Answered, true)];
      && IsRound(tries, st) && EndsAnswered(tries) && AllNumbered(tries)
      && TableAfter([], tries, NoConstraint()) == chunk + chunk
  {
    var st := StatementFor(chunk);
    TwoRuns([], Sending(st, Interrupted, true), Sending(st, Answered, true), chunk);
    assert [] + chunk + chunk == chunk + chunk;
  }

  lemma TwoRuns(table: seq<Row>, a: Sending, b: Sending, chunk: seq<Row>)
    requires a.st == b.st == StatementFor(chunk) && a.ran && b.ran
    ensures AllNumbered([a, b]) && TableAfter(table, [a, b], NoConstraint()) == table + chunk + chunk
  {
    NumberedTries([a, b], chunk);
    NumberedTries([a], chunk);
    StatementInsertsChunk(chunk);
    PutAll(table, chunk);
    PutAll(table + chunk, chunk);
    hide *;
    OneSending(table, [a], NoConstraint());
    assert [a][..0] == [] && [a, b][..1] == [a];
    OneSending(table, [a, b], NoConstraint());
  }

  lemma OneSending(table: seq<Row>, log: seq<Sending>, clash: (Row, Row) -> bool)
    requires AllNumbered(log) && log != [] && log[|log| - 1].ran
    ensures AllNumbered(log[..|log| - 1])
    ensures TableAfter(table, log, clash)
            == Put(TableAfter(table, log[..|log| - 1], clash), Inserted(log[|log| - 1].st), clash)
    ensures AllNumbered([]) && TableAfter(table, [], clash) == table
  {
    hide Put, Inserted, Numbered;
  }

  lemma {:induction false} PutAll(table: seq<Row>, rows: seq<Row>)
    ensures Put(table, rows, NoConstraint()) == table + rows
  {
    if rows == [] {
      assert table + rows == table;
    } else {
      PutAll(table, rows[..|rows| - 1]);
      assert table + rows[..|rows| - 1] + [rows[|rows| - 1]] == table + rows;
    }
  }
}
