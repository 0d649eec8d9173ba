/** Emptying the schemas that a restore will refill: which schemas may be touched, the order
    of the drops, and the transaction around them. The texts of the statements and of the
    catalog queries are not modelled, only their results. */
module SchemaReset {
  import opened Wrappers

  type Schema = string

  // The object types of the catalog that the program can drop, and any other.
  datatype Kind =
    | Table | ForeignTable | View | MaterializedView | Sequence | Function | Procedure | Aggregate
    | Statistics | TsConfiguration | TsDictionary | Operator | OperatorClass | OperatorFamily
    | Conversion | Collation | Domain | TypeKind
    | Unknown(name: string)

  datatype SchemaObject = SchemaObject(kind: Kind, identity: string)

  // `owned`: this role may empty the schema and no extension owns it. `kept`: the owner,
  // grants, default privileges and extension members, which a reset does not touch.
  datatype SchemaState = SchemaState(owned: bool, objects: seq<SchemaObject>, kept: string)

  type Database = map<Schema, SchemaState>

  predicate StartsWithPg(name: Schema) {
    |name| >= 3 && name[0] == 'p' && name[1] == 'g' && name[2] == '_'
  }

  const MANAGED_SCHEMAS: set<Schema> := {
    "_analytics", "_realtime", "auth", "cron", "extensions", "graphql", "graphql_public",
    "information_schema", "net", "pgbouncer", "pgsodium", "pgsodium_masks", "realtime",
    "storage", "supabase_functions", "supabase_migrations", "vault"
  }

  predicate IsManagedSchema(name: Schema) {
    name in MANAGED_SCHEMAS || StartsWithPg(name)
  }

  /** What a checkpoint may hold and a restore may replace. */
  predicate Restorable(db: Database, s: Schema) {
    s in db && db[s].owned && !IsManagedSchema(s)
  }

  /** The names that the server or a hosting platform reserves. */
  predicate IsReserved(name: Schema) {
    || "pg_" <= name
    || name == "_analytics" || name == "_realtime" || name == "auth" || name == "cron" || name == "extensions"
    || name == "graphql" || name == "graphql_public" || name == "information_schema" || name == "net"
    || name == "pgbouncer" || name == "pgsodium" || name == "pgsodium_masks" || name == "realtime"
    || name == "storage" || name == "supabase_functions" || name == "supabase_migrations" || name == "vault"
  }

  lemma ManagedIff(name: Schema)
    ensures IsManagedSchema(name) <==> IsReserved(name)
  {
  }

  /** A schema may be replaced if it exists, this role may empty it and its name is not
      reserved. */
  lemma RestorableIff(db: Database, s: Schema)
    ensures Restorable(db, s) <==> s in db && db[s].owned && !IsReserved(s)
  {
    ManagedIff(s);
  }

  // The objects of some schemas, as a checkpoint holds them.
  type Content = map<Schema, seq<SchemaObject>>

  /** What a checkpoint of the database captures. */
  function Scope(db: Database): set<Schema> {
    set s | s in db && Restorable(db, s)
  }

  function Captured(db: Database): Content {
    map s | s in Scope(db) :: db[s].objects
  }

  /** A checkpoint captures the objects of just these schemas. */
  lemma CapturedIff(db: Database, s: Schema, objects: seq<SchemaObject>)
    ensures s in Captured(db) && Captured(db)[s] == objects
            <==> s in db && db[s].owned && !IsReserved(s) && db[s].objects == objects
  {
    RestorableIff(db, s);
    hide IsReserved, IsManagedSchema;
  }

  function RefusedSchemas(db: Database, schemas: seq<Schema>): seq<Schema> {
    if schemas == [] then []
    else
      (if IsManagedSchema(schemas[0]) || (schemas[0] in db && !Restorable(db, schemas[0])) then [schemas[0]] else [])
      + RefusedSchemas(db, schemas[1..])
  }

  /** Nothing is refused exactly if every named schema that exists may be replaced and no
      missing one is reserved for the platform. */
  lemma {:induction false} NothingRefusedIff(db: Database, schemas: seq<Schema>)
    ensures RefusedSchemas(db, schemas) == []
            <==> forall s :: s in schemas ==> if s in db then Restorable(db, s) else !IsManagedSchema(s)
  {
    hide IsManagedSchema;
    if schemas != [] {
      NothingRefusedIff(db, schemas[1..]);
      assert schemas == [schemas[0]] + schemas[1..];
    }
  }

  // ------------------------------------------------------------ the drop statements

  /** Relations go first, so that routines and types are no longer in use. */
  function DropOrder(k: Kind): Option<nat> {
    match k
    case Table => Some(0) case ForeignTable => Some(0) case View => Some(0) case MaterializedView => Some(0)
    case Sequence => Some(1)
    case Function => Some(2) case Procedure => Some(2) case Aggregate => Some(2) case Statistics => Some(2)
    case TsConfiguration => Some(3) case TsDictionary => Some(3) case Operator => Some(3)
    case OperatorClass => Some(3) case OperatorFamily => Some(3) case Conversion => Some(3)
    case Collation => Some(4) case Domain => Some(4) case TypeKind => Some(4)
    case Unknown(_) => None
  }

  /** Relations, sequences, routines and statistics, what is built on types, types; anything
      else cannot be dropped. */
  lemma DropRanks(k: Kind)
    ensures DropOrder(k) == Some(0) <==> k in {Table, ForeignTable, View, MaterializedView}
    ensures DropOrder(k) == Some(1) <==> k == Sequence
    ensures DropOrder(k) == Some(2) <==> k in {Function, Procedure, Aggregate, Statistics}
    ensures DropOrder(k) == Some(3) <==>
              k in {TsConfiguration, TsDictionary, Operator, OperatorClass, OperatorFamily, Conversion}
    ensures DropOrder(k) == Some(4) <==> k in {Collation, Domain, TypeKind}
    ensures DropOrder(k) == None <==> k.Unknown?
  {
  }

  predicate Droppable(o: SchemaObject) {
    DropOrder(o.kind).Some?
  }

  predicate AllDroppable(objects: seq<SchemaObject>) {
    forall o :: o in objects ==> Droppable(o)
  }

  function Order(o: SchemaObject): nat {
    DropOrder(o.kind).GetOr(0)
  }

  /** A stable sort. */
  function Insert(o: SchemaObject, sorted: seq<SchemaObject>): seq<SchemaObject> {
    if sorted == [] || Order(o) <= Order(sorted[0]) then [o] + sorted
    else [sorted[0]] + Insert(o, sorted[1..])
  }

  function SortByOrder(objects: seq<SchemaObject>): seq<SchemaObject> {
    if objects == [] then [] else Insert(objects[0], SortByOrder(objects[1..]))
  }

  function EmptySchemaStatements(objects: seq<SchemaObject>): Option<seq<SchemaObject>> {
    if AllDroppable(objects) then Some(SortByOrder(objects)) else None
  }

  ghost predicate Ordered(objects: seq<SchemaObject>) {
    forall i, j :: 0 <= i < j < |objects| ==> Order(objects[i]) <= Order(objects[j])
  }

  function OfOrder(objects: seq<SchemaObject>, n: nat): seq<SchemaObject> {
    if objects == [] then [] else (if Order(objects[0]) == n then [objects[0]] else []) + OfOrder(objects[1..], n)
  }

  ghost predicate SameInEveryOrder(a: seq<SchemaObject>, b: seq<SchemaObject>) {
    forall n: nat :: OfOrder(a, n) == OfOrder(b, n)
  }

  lemma {:induction false} InsertOrdered(o: SchemaObject, sorted: seq<SchemaObject>)
    requires Ordered(sorted)
    ensures Ordered(Insert(o, sorted)) && forall x :: x in Insert(o, sorted) <==> x == o || x in sorted
  {
    hide Order;
    if sorted == [] || Order(o) <= Order(sorted[0]) {
    } else {
      var rest := Insert(o, sorted[1..]);
      InsertOrdered(o, sorted[1..]);
      assert sorted == [sorted[0]] + sorted[1..];
      forall i | 0 <= i < |rest| ensures Order(sorted[0]) <= Order(rest[i]) {
        assert rest[i] in rest;
      }
    }
  }

  lemma OfOrderCons(o: SchemaObject, rest: seq<SchemaObject>, n: nat)
    ensures OfOrder([o] + rest, n) == (if Order(o) == n then [o] else []) + OfOrder(rest, n)
  {
    hide Order;
    assert ([o] + rest)[1..] == rest;
  }

  lemma {:induction false} InsertIsStable(o: SchemaObject, sorted: seq<SchemaObject>, n: nat)
    ensures OfOrder(Insert(o, sorted), n) == (if Order(o) == n then [o] else []) + OfOrder(sorted, n)
  {
    hide Order, OfOrder;
    if sorted == [] || Order(o) <= Order(sorted[0]) {
      OfOrderCons(o, sorted, n);
    } else {
      InsertIsStable(o, sorted[1..], n);
      OfOrderCons(sorted[0], Insert(o, sorted[1..]), n);
      OfOrderCons(sorted[0], sorted[1..], n);
      assert sorted == [sorted[0]] + sorted[1..];
    }
  }

  lemma {:induction false} SortOrdered(objects: seq<SchemaObject>)
    ensures Ordered(SortByOrder(objects)) && forall x :: x in SortByOrder(objects) <==> x in objects
  {
    if objects != [] {
      SortOrdered(objects[1..]);
      InsertOrdered(objects[0], SortByOrder(objects[1..]));
      assert objects == [objects[0]] + objects[1..];
    }
  }

  lemma {:induction false} SortIsStable(objects: seq<SchemaObject>, n: nat)
    ensures OfOrder(SortByOrder(objects), n) == OfOrder(objects, n)
  {
    hide Order;
    if objects != [] {
      SortIsStable(objects[1..], n);
      InsertIsStable(objects[0], SortByOrder(objects[1..]), n);
    }
  }

  lemma {:induction false} OfOrderEmpty(objects: seq<SchemaObject>, n: nat)
    requires Ordered(objects) && objects != [] && n < Order(objects[0])
    ensures OfOrder(objects, n) == []
  {
    hide Order;
    if |objects| > 1 {
      OfOrderEmpty(objects[1..], n);
    } else {
      assert objects[1..] == [];
    }
  }

  lemma OfOrderTail(objects: seq<SchemaObject>, n: nat)
    requires objects != []
    ensures if Order(objects[0]) == n
            then OfOrder(objects, n) != [] && OfOrder(objects, n)[0] == objects[0]
                 && OfOrder(objects, n)[1..] == OfOrder(objects[1..], n)
            else OfOrder(objects, n) == OfOrder(objects[1..], n)
  {
    hide Order;
  }

  /** There is no other such order. */
  lemma {:induction false} StableOrderIsUnique(a: seq<SchemaObject>, b: seq<SchemaObject>)
    requires Ordered(a) && Ordered(b) && SameInEveryOrder(a, b)
    ensures a == b
  {
    hide Order;
    if a == [] && b == [] {
    } else if a == [] || b == [] {
      var c := if a == [] then b else a;
      OfOrderTail(c, Order(c[0]));
    } else {
      FirstOfStable(a, b);
      forall n: nat ensures OfOrder(a[1..], n) == OfOrder(b[1..], n) {
        assert OfOrder(a, n) == OfOrder(b, n);
        OfOrderTail(a, n);
        OfOrderTail(b, n);
      }
      StableOrderIsUnique(a[1..], b[1..]);
      assert a == [a[0]] + a[1..] && b == [b[0]] + b[1..];
    }
  }

  lemma FirstOfStable(a: seq<SchemaObject>, b: seq<SchemaObject>)
    requires Ordered(a) && Ordered(b) && a != [] && b != [] && SameInEveryOrder(a, b)
    ensures a[0] == b[0]
  {
    hide Order;
    var m, n := Order(a[0]), Order(b[0]);
    OfOrderTail(a, m);
    OfOrderTail(b, n);
    assert OfOrder(a, m) == OfOrder(b, m) && OfOrder(a, n) == OfOrder(b, n);
    if m < n {
      OfOrderEmpty(b, m);
    } else if n < m {
      OfOrderEmpty(a, n);
    }
  }

  /** The statements for a schema, exactly: none at all if some object is of an unknown
      type, and else the drops of its objects, relations first and those of the same rank
      in the order of the catalog. */
  lemma StatementsExact(objects: seq<SchemaObject>, statements: seq<SchemaObject>)
    ensures EmptySchemaStatements(objects) == Some(statements)
            <==> AllDroppable(objects) && Ordered(statements) && SameInEveryOrder(statements, objects)
  {
    hide AllDroppable;
    var sorted := SortByOrder(objects);
    SortOrdered(objects);
    forall n: nat ensures OfOrder(sorted, n) == OfOrder(objects, n) {
      SortIsStable(objects, n);
    }
    if Ordered(statements) && SameInEveryOrder(statements, objects) {
      assert SameInEveryOrder(sorted, statements);
      StableOrderIsUnique(sorted, statements);
    }
  }

  // ---------------------------------------------------------------- the transaction

  function Existing(db: Database, schemas: seq<Schema>): set<Schema> {
    set s | s in schemas && s in db
  }

  /** With no list, every restorable schema. */
  function Targets(db: Database, schemas: Option<seq<Schema>>): set<Schema> {
    if schemas.Some? then Existing(db, schemas.value) else Scope(db)
  }

  /** Empties the schemas and leaves everything else, their owners and grants included. */
  function Emptied(db: Database, targets: set<Schema>): Database {
    map s | s in db :: if s in targets then db[s].(objects := []) else db[s]
  }

  lemma EmptiedNext(db: Database, done: set<Schema>, s: Schema)
    ensures Emptied(Emptied(db, done), {s}) == Emptied(db, done + {s})
  {
  }

  lemma NothingEmptied(db: Database)
    ensures Emptied(db, {}) == db
  {
  }

  lemma StillThere(db: Database, done: set<Schema>, s: Schema)
    requires s in db && s !in done
    ensures s in Emptied(db, done) && Emptied(db, done)[s] == db[s]
  {
  }

  predicate EachDroppable(db: Database, schemas: set<Schema>)
    requires forall s :: s in schemas ==> s in db
  {
    forall s :: s in schemas ==> AllDroppable(db[s].objects)
  }

  lemma TargetsExist(db: Database, schemas: Option<seq<Schema>>)
    ensures forall s :: s in Targets(db, schemas) ==> s in db
  {
    hide Restorable;
  }

  predicate MayReset(db: Database, schemas: Option<seq<Schema>>) {
    && (schemas.Some? ==> RefusedSchemas(db, schemas.value) == [])
    && EachDroppable(db, Targets(db, schemas))
  }

  /** Whether a schema is to be emptied: without a list each that may be replaced, with a
      list each that is named and exists. */
  ghost predicate IsTarget(db: Database, schemas: Option<seq<Schema>>, s: Schema) {
    s in db && if schemas.None? then db[s].owned && !IsReserved(s) else s in schemas.value
  }

  /** A name that is reserved, or that of a schema of another role. */
  ghost predicate IsForeign(db: Database, s: Schema) {
    IsReserved(s) || (s in db && !db[s].owned)
  }

  /** A reset may go ahead exactly if no named schema is reserved or exists without being this
      role's, and every object to be dropped is of a known type. */
  lemma MayResetIff(db: Database, schemas: Option<seq<Schema>>)
    ensures MayReset(db, schemas)
            <==> && (schemas.Some? ==>
                       forall s :: s in schemas.value ==> !IsReserved(s) && (s in db ==> db[s].owned))
                 && forall s, o :: IsTarget(db, schemas, s) && o in db[s].objects ==> !o.kind.Unknown?
  {
    TargetIff(db, schemas);
    hide IsReserved, IsManagedSchema, Targets;
    if schemas.Some? {
      NothingRefusedIff(db, schemas.value);
      forall s | s in schemas.value
        ensures (if s in db then Restorable(db, s) else !IsManagedSchema(s))
                <==> !IsReserved(s) && (s in db ==> db[s].owned)
      {
        ManagedIff(s);
      }
    }
    forall o: SchemaObject ensures Droppable(o) <==> !o.kind.Unknown? {
      DropRanks(o.kind);
    }
  }

  lemma TargetIff(db: Database, schemas: Option<seq<Schema>>)
    ensures forall s :: s in Targets(db, schemas) <==> IsTarget(db, schemas, s)
  {
    forall s ensures s in Targets(db, schemas) <==> IsTarget(db, schemas, s) {
      RestorableIff(db, s);
    }
  }

  /** After a reset each target is empty and has kept its owner and grants; nothing else has
      changed. */
  lemma EmptiedAt(db: Database, schemas: Option<seq<Schema>>, s: Schema)
    ensures Get(Emptied(db, Targets(db, schemas)), s)
            == if IsTarget(db, schemas, s) then Some(SchemaState(db[s].owned, [], db[s].kept)) else Get(db, s)
  {
    TargetIff(db, schemas);
    hide IsTarget, Targets;
    assert IsTarget(db, schemas, s) ==> s in db by {
      TargetExists(db, schemas, s);
    }
  }

  lemma TargetExists(db: Database, schemas: Option<seq<Schema>>, s: Schema)
    ensures IsTarget(db, schemas, s) ==> s in db
  {
  }

  /** A permitted reset only touches schemas that exist, may be replaced and are not the
      platform's. */
  lemma ResetTouchesOnlyRestorable(db: Database, schemas: Option<seq<Schema>>, s: Schema)
    requires MayReset(db, schemas) && Get(Emptied(db, Targets(db, schemas)), s) != Get(db, s)
    ensures s in db && db[s].owned && !IsReserved(s) && (schemas.Some? ==> s in schemas.value)
  {
    RestorableIff(db, s);
    hide IsManagedSchema, IsReserved;
    if schemas.Some? {
      NothingRefusedIff(db, schemas.value);
    }
  }

  lemma ChangesOnlyOwned(db: Database, schemas: Option<seq<Schema>>)
    ensures MayReset(db, schemas) ==>
              forall s :: Get(Emptied(db, Targets(db, schemas)), s) != Get(db, s) ==>
                s in db && db[s].owned && !IsReserved(s) && (schemas.Some? ==> s in schemas.value)
  {
    hide MayReset, Emptied, Targets, IsReserved;
    if MayReset(db, schemas) {
      forall s | Get(Emptied(db, Targets(db, schemas)), s) != Get(db, s)
        ensures s in db && db[s].owned && !IsReserved(s) && (schemas.Some? ==> s in schemas.value)
      {
        ResetTouchesOnlyRestorable(db, schemas, s);
      }
    }
  }

  function Get(db: Database, s: Schema): Option<SchemaState> {
    if s in db then Some(db[s]) else None
  }

  lemma NoneLeft(left: seq<SchemaObject>, todo: seq<SchemaObject>)
    requires forall x :: x in left ==> x in todo
    ensures todo == [] ==> left == []
  {
    if left != [] {
      assert left[0] in todo;
    }
  }

  /** Nothing has changed except that the schema may have lost objects. */
  ghost predicate OnlyFewer(before: Database, after: Database, s: Schema) {
    && s in before && after.Keys == before.Keys
    && (forall t :: t in after && t != s ==> after[t] == before[t])
    && after[s] == before[s].(objects := after[s].objects)
    && forall x :: x in after[s].objects ==> x in before[s].objects
  }

  datatype ResetOutcome = Done | Failed

  /** The connection of the lock. `committed` is the database as others see it, `open` the
      state inside a transaction. Any query may fail; a failing commit may still have
      taken effect. */
  class Session {
    var committed: Database
    var open: Option<Database>
    // How many queries have failed.
    ghost var faults: nat

    constructor (db: Database)
      ensures committed == db && open.None?
    {
      committed, open, faults := db, None, 0;
    }

    method Query() returns (ok: bool)
      modifies this`faults
      ensures faults == old(faults) + if ok then 0 else 1
    {
      ok := *;
      if !ok {
        faults := faults + 1;
      }
    }

    method Begin() returns (ok: bool)
      requires open.None?
      modifies this`open, this`faults
      ensures open == if ok then Some(committed) else None
      ensures faults == old(faults) + if ok then 0 else 1
    {
      ok := Query();
      if ok {
        open := Some(committed);
      }
    }

    /** DROP ... IF EXISTS ... CASCADE: the object goes, and with it any others of its
        schema that depend on it. */
    method Drop(s: Schema, o: SchemaObject) returns (ok: bool)
      requires open.Some? && s in open.value
      modifies this`open, this`faults
      ensures open.Some? && OnlyFewer(old(open.value), open.value, s)
      ensures !ok ==> open == old(open)
      ensures ok ==> o !in open.value[s].objects
      ensures faults == old(faults) + if ok then 0 else 1
    {
      ok := Query();
      if ok {
        var left: seq<SchemaObject> := *;
        if !(forall x :: x in left ==> x in open.value[s].objects && x != o) {
          left := [];
        }
        open := Some(open.value[s := open.value[s].(objects := left)]);
      }
    }

    method Commit() returns (ok: bool)
      requires open.Some?
      modifies this
      ensures open.None?
      ensures committed == old(committed) || committed == old(open.value)
      ensures ok ==> committed == old(open.value)
      ensures faults == old(faults) + if ok then 0 else 1
    {
      ok := Query();
      var applied: bool := *;
      if ok || applied {
        committed := open.value;
      }
      open := None;
    }

    /** Also when the statement fails the server gives the transaction up. */
    method Rollback()
      modifies this`open
      ensures open.None?
    {
      open := None;
    }

    method EmptySchema(s: Schema) returns (ok: bool)
      requires open.Some? && s in open.value
      modifies this`open, this`faults
      ensures open.Some? && faults >= old(faults)
      ensures faults == old(faults) ==> (ok <==> AllDroppable(old(open.value)[s].objects))
      ensures ok ==> faults == old(faults)
      ensures ok ==> AllDroppable(old(open.value)[s].objects) && open.value == Emptied(old(open.value), {s})
    {
      hide AllDroppable, SortByOrder;
      ok := Query();
      if !ok {
        return false;
      }
      var statements := EmptySchemaStatements(open.value[s].objects);
      if statements.None? {
        return false;
      }
      SortOrdered(open.value[s].objects);
      ok := DropAll(s, statements.value);
    }

    method DropAll(s: Schema, statements: seq<SchemaObject>) returns (ok: bool)
      requires open.Some? && s in open.value && forall x :: x in open.value[s].objects ==> x in statements
      modifies this`open, this`faults
      ensures open.Some? && faults >= old(faults) && (ok <==> faults == old(faults))
      ensures ok ==> open.value == Emptied(old(open.value), {s})
    {
      ghost var before := open.value;
      for i := 0 to |statements|
        invariant open.Some? && OnlyFewer(before, open.value, s) && faults == old(faults)
        invariant forall x :: x in open.value[s].objects ==> x in statements[i..]
      {
        ok := Drop(s, statements[i]);
        if !ok {
          return false;
        }
        assert statements[i..] == [statements[i]] + statements[i + 1..];
      }
      NoneLeft(open.value[s].objects, statements[|statements|..]);
      ok := true;
    }

    /** All or nothing, whatever fails on the way. */
    method ResetPostgres(schemas: Option<seq<Schema>>) returns (outcome: ResetOutcome)
      requires open.None?
      modifies this
      ensures open.None?
      ensures committed == old(committed) || committed == Emptied(old(committed), Targets(old(committed), schemas))
      ensures outcome.Done? ==> committed == Emptied(old(committed), Targets(old(committed), schemas))
      ensures !MayReset(old(committed), schemas) ==> outcome.Failed? && committed == old(committed)
      ensures faults >= old(faults) && (outcome.Done? <==> MayReset(old(committed), schemas) && faults == old(faults))
      // A named schema that is reserved or another role's stops it before anything changes.
      ensures schemas.Some?
              && (exists s :: s in schemas.value && IsForeign(old(committed), s)) ==>
                outcome.Failed? && committed == old(committed)
      ensures forall s :: Get(committed, s) != Get(old(committed), s) ==>
                && s in old(committed) && old(committed)[s].owned && !IsReserved(s)
                && (schemas.Some? ==> s in schemas.value)
    {
      MayResetIff(committed, schemas);
      ChangesOnlyOwned(committed, schemas);
      hide IsReserved, MayReset, Emptied, Targets;
      var ok := Begin();
      if !ok {
        return Failed;
      }
      ok := EmptyTargets(schemas);
      if ok {
        ok := Commit();
        return if ok then Done else Failed;
      }
      Rollback();
      outcome := Failed;
    }

    method EmptyTargets(schemas: Option<seq<Schema>>) returns (ok: bool)
      requires open.Some?
      modifies this`open, this`faults
      ensures open.Some? && faults >= old(faults)
      ensures ok <==> MayReset(old(open.value), schemas) && faults == old(faults)
      ensures ok ==> MayReset(old(open.value), schemas)
                     && open.value == Emptied(old(open.value), Targets(old(open.value), schemas))
    {
      hide Emptied, AllDroppable, RefusedSchemas, Targets;
      ok := Query();
      if !ok {
        return false;
      }
      if schemas.Some? && RefusedSchemas(open.value, schemas.value) != [] {
        return false;
      }
      TargetsExist(open.value, schemas);
      ok := EmptyEach(Targets(open.value, schemas));
    }

    method EmptyEach(targets: set<Schema>) returns (ok: bool)
      requires open.Some? && forall s :: s in targets ==> s in open.value
      modifies this`open, this`faults
      ensures open.Some? && faults >= old(faults)
      ensures ok <==> EachDroppable(old(open.value), targets) && faults == old(faults)
      ensures ok ==> open.value == Emptied(old(open.value), targets)
    {
      hide Emptied, AllDroppable;
      ghost var db := open.value;
      var todo := targets;
      ghost var done: set<Schema> := {};
      NothingEmptied(db);
      while todo != {}
        invariant open.Some? && open.value == Emptied(db, done) && faults == old(faults)
        invariant forall s :: s in todo ==> s in targets && s !in done
        invariant forall s :: s in targets ==> s in todo || s in done
        invariant forall s :: s in done ==> s in targets && AllDroppable(db[s].objects)
        decreases |todo|
      {
        var s :| s in todo;
        StillThere(db, done, s);
        ok := EmptySchema(s);
        if !ok {
          return false;
        }
        todo := todo - {s};
        EmptiedNext(db, done, s);
        done := done + {s};
      }
      assert done == targets;
      ok := true;
    }
  }
}
