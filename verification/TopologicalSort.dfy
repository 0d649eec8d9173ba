/** The order in which tables are created and copied between databases: a depth-first
    search over foreign keys that tolerates cycles.

    The search keeps two sets, the tables it has finished and the tables it is inside.
    A reference back into a table it is inside is skipped, so the result need not put
    every referenced table first; what is proved is that only references along a
    foreign-key cycle are ever left out of order. */
module TopologicalSort {

  // `references` lists the referenced table of each foreign key, in order.
  datatype Table = Table(name: string, references: seq<string>)

  type Schema = map<string, Table>

  /** The definition a name stands for: the last one in the list, as in a JavaScript
      `Map` filled from left to right. */
  ghost function SchemaOf(tables: seq<Table>): (m: Schema)
    ensures forall n :: n in m ==> m[n].name == n && m[n] in tables
    ensures m.Keys == Names(tables)
  {
    if tables == [] then map[]
    else
      var last := tables[|tables| - 1];
      assert tables == tables[..|tables| - 1] + [last];
      SchemaOf(tables[..|tables| - 1])[last.name := last]
  }

  /** Table `u` references another table `v` of the schema. */
  ghost predicate References(m: Schema, u: string, v: string) {
    u in m && v in m && u != v && v in m[u].references
  }

  ghost predicate IsPath(m: Schema, p: seq<string>) {
    p != [] && forall i :: 0 < i < |p| ==> References(m, p[i - 1], p[i])
  }

  ghost predicate IsPathBetween(m: Schema, p: seq<string>, u: string, v: string) {
    IsPath(m, p) && p[0] == u && p[|p| - 1] == v
  }

  ghost predicate Reaches(m: Schema, u: string, v: string) {
    exists p :: IsPathBetween(m, p, u, v)
  }

  /** A foreign-key cycle through two or more tables. */
  ghost predicate IsCycle(m: Schema, c: seq<string>) {
    |c| >= 2 && IsPathBetween(m, c, c[0], c[0])
  }

  ghost predicate OnCommonCycle(m: Schema, u: string, v: string) {
    exists c :: IsCycle(m, c) && u in c && v in c
  }

  ghost predicate Acyclic(m: Schema) {
    forall c :: !IsCycle(m, c)
  }

  ghost predicate UniqueNames(ts: seq<Table>) {
    forall i, j :: 0 <= i < j < |ts| ==> ts[i].name != ts[j].name
  }

  ghost function Names(ts: seq<Table>): set<string> {
    set t | t in ts :: t.name
  }

  /** Every table comes after all the tables it references. */
  ghost predicate InDependencyOrder(m: Schema, ts: seq<Table>) {
    forall i, v :: 0 <= i < |ts| && References(m, ts[i].name, v) ==> v in Names(ts[..i])
  }

  /** Every reference to a table that is not already listed goes round a cycle. */
  ghost predicate OnlyCyclesOutOfOrder(m: Schema, ts: seq<Table>) {
    forall i, v :: 0 <= i < |ts| && References(m, ts[i].name, v) && v !in Names(ts[..i])
      ==> OnCommonCycle(m, ts[i].name, v)
  }

  lemma ReferenceBackClosesCycle(m: Schema, u: string, v: string)
    requires References(m, u, v) && Reaches(m, v, u)
    ensures OnCommonCycle(m, u, v)
  {
    var p :| IsPathBetween(m, p, v, u);
    var c := [u] + p;
    assert c[|c| - 1] == u && c[1] == v;
    assert IsCycle(m, c);
  }

  /** A list in dependency order walks strictly backwards along any path. */
  lemma {:induction false} PathsGoBackwards(m: Schema, ts: seq<Table>, p: seq<string>, i: nat)
    requires InDependencyOrder(m, ts) && IsPath(m, p) && |p| >= 2
    requires i < |ts| && ts[i].name == p[0]
    ensures p[|p| - 1] in Names(ts[..i])
  {
    assert References(m, p[0], p[1]);
    var j :| 0 <= j < i && ts[j].name == p[1];
    if |p| > 2 {
      assert IsPath(m, p[1..]) by {
        forall k | 0 < k < |p[1..]| ensures References(m, p[1..][k - 1], p[1..][k]) {
          assert References(m, p[k], p[k + 1]);
        }
      }
      PathsGoBackwards(m, ts, p[1..], j);
      var t :| t in ts[..j] && t.name == p[|p| - 1];
      assert t in ts[..i];
    } else {
      assert ts[j] in ts[..i];
    }
  }

  /** A list of all the tables, each name once, is in dependency order only when the
      schema has no cycle: leaving some references out of order is unavoidable. */
  lemma OrderedOnlyIfAcyclic(m: Schema, ts: seq<Table>)
    requires UniqueNames(ts) && Names(ts) == m.Keys
    requires InDependencyOrder(m, ts)
    ensures Acyclic(m)
  {
    forall c | IsCycle(m, c) ensures false {
      assert References(m, c[0], c[1]);
      var t :| t in ts && t.name == c[0];
      var i :| 0 <= i < |ts| && ts[i] == t;
      PathsGoBackwards(m, ts, c, i);
    }
  }

  /** An acyclic schema comes out with every referenced table first. */
  lemma AcyclicComesOutOrdered(m: Schema, ts: seq<Table>)
    requires OnlyCyclesOutOfOrder(m, ts) && Acyclic(m)
    ensures InDependencyOrder(m, ts)
  {
    forall i, v | 0 <= i < |ts| && References(m, ts[i].name, v) ensures v in Names(ts[..i]) {
      assert !OnCommonCycle(m, ts[i].name, v);
    }
  }

  lemma OrderedIffAcyclic(m: Schema, ts: seq<Table>)
    requires UniqueNames(ts) && Names(ts) == m.Keys && OnlyCyclesOutOfOrder(m, ts)
    ensures InDependencyOrder(m, ts) <==> Acyclic(m)
  {
    if Acyclic(m) {
      AcyclicComesOutOrdered(m, ts);
    } else if InDependencyOrder(m, ts) {
      OrderedOnlyIfAcyclic(m, ts);
    }
  }

  lemma {:induction false} SchemaOfUnique(ts: seq<Table>, t: Table)
    requires UniqueNames(ts) && t in ts
    ensures SchemaOf(ts)[t.name] == t
  {
    var init, last := ts[..|ts| - 1], ts[|ts| - 1];
    if t != last {
      assert t in init;
      SchemaOfUnique(init, t);
    }
  }

  lemma {:induction false} UniqueIffAsManyNames(ts: seq<Table>)
    ensures |Names(ts)| <= |ts|
    ensures UniqueNames(ts) <==> |Names(ts)| == |ts|
  {
    if ts != [] {
      var init, last := ts[..|ts| - 1], ts[|ts| - 1];
      UniqueIffAsManyNames(init);
      NamesOfAppend(init, last);
      assert ts == init + [last];
      UniqueAppend(init, last);
    }
  }

  lemma NamesOfAppend(ts: seq<Table>, t: Table)
    ensures Names(ts + [t]) == Names(ts) + {t.name}
  {
    assert forall x :: x in ts + [t] <==> x in ts || x == t;
  }

  lemma UniqueAppend(ts: seq<Table>, t: Table)
    ensures UniqueNames(ts + [t]) <==> UniqueNames(ts) && t.name !in Names(ts)
  {
    var longer := ts + [t];
    if UniqueNames(longer) {
      assert forall i :: 0 <= i < |ts| ==> longer[i] == ts[i] && longer[i].name != longer[|ts|].name;
    }
  }

  lemma {:induction false} UniqueOnce(ts: seq<Table>)
    requires UniqueNames(ts)
    ensures forall t :: t in ts ==> multiset(ts)[t] == 1
  {
    if ts != [] {
      UniqueOnce(ts[..|ts| - 1]);
      assert ts == ts[..|ts| - 1] + [ts[|ts| - 1]];
    }
  }

  /** The search returns a rearrangement of its input exactly when no name is defined
      twice; otherwise all but the last definition of a repeated name are dropped. */
  lemma RearrangementIffUnique(tables: seq<Table>, ts: seq<Table>)
    requires UniqueNames(ts) && Names(ts) == Names(tables)
    requires forall t :: t in ts ==> t == SchemaOf(tables)[t.name]
    ensures multiset(ts) == multiset(tables) <==> UniqueNames(tables)
  {
    UniqueIffAsManyNames(ts);
    UniqueIffAsManyNames(tables);
    assert |multiset(ts)| == |ts| && |multiset(tables)| == |tables|;
    if UniqueNames(tables) {
      forall t ensures t in ts <==> t in tables {
        if t in tables {
          SchemaOfUnique(tables, t);
          assert t.name in Names(ts);
        }
      }
      UniqueOnce(ts);
      UniqueOnce(tables);
      SameMembersOnce(ts, tables);
    }
  }

  lemma SameMembersOnce(ts: seq<Table>, us: seq<Table>)
    requires forall t :: t in ts <==> t in us
    requires forall t :: t in ts ==> multiset(ts)[t] == 1
    requires forall t :: t in us ==> multiset(us)[t] == 1
    ensures multiset(ts) == multiset(us)
  {
    forall t ensures multiset(ts)[t] == multiset(us)[t] {
      assert t in multiset(ts) <==> t in ts;
      assert t in multiset(us) <==> t in us;
    }
  }

  /** Appending a finished table keeps the order facts. */
  lemma AppendFinished(m: Schema, ts: seq<Table>, t: Table)
    requires UniqueNames(ts) && OnlyCyclesOutOfOrder(m, ts) && t.name !in Names(ts)
    requires forall v :: References(m, t.name, v) && v !in Names(ts) ==> OnCommonCycle(m, t.name, v)
    ensures UniqueNames(ts + [t]) && OnlyCyclesOutOfOrder(m, ts + [t])
    ensures Names(ts + [t]) == Names(ts) + {t.name}
  {
    var longer := ts + [t];
    NamesOfAppend(ts, t);
    assert longer[..|ts|] == ts;
    assert forall i :: 0 <= i < |ts| ==> longer[..i] == ts[..i] && longer[i] == ts[i];
  }

  /** A reference from the innermost table of the chain back into the chain closes a
      cycle. */
  lemma BackReferencesAreCyclic(m: Schema, chain: seq<string>, u: string, finished: set<string>)
    requires IsPath(m, chain) && chain[|chain| - 1] == u
    requires forall v :: References(m, u, v) ==> v in finished || v in chain
    ensures forall v :: References(m, u, v) && v !in finished ==> OnCommonCycle(m, u, v)
  {
    forall v | References(m, u, v) && v !in finished ensures OnCommonCycle(m, u, v) {
      var k :| 0 <= k < |chain| && chain[k] == v;
      var rest := chain[k..];
      forall i | 0 < i < |rest| ensures References(m, rest[i - 1], rest[i]) {
        assert References(m, chain[k + i - 1], chain[k + i]);
      }
      assert IsPathBetween(m, rest, v, u);
      ReferenceBackClosesCycle(m, u, v);
    }
  }

  /** The search, having listed exactly the tables before position `i`, appends the one
      at `i` at once. */
  ghost predicate NextReady(m: Schema, tables: seq<Table>, i: nat)
    requires i < |tables|
  {
    var t := tables[i];
    && t.name in m && m[t.name] == t && t.name !in Names(tables[..i])
    && forall v :: References(m, t.name, v) ==> v in Names(tables[..i])
  }

  ghost predicate AlwaysReady(m: Schema, tables: seq<Table>) {
    forall i :: 0 <= i < |tables| ==> NextReady(m, tables, i)
  }

  lemma OrderedIsAlwaysReady(tables: seq<Table>)
    requires UniqueNames(tables) && InDependencyOrder(SchemaOf(tables), tables)
    ensures AlwaysReady(SchemaOf(tables), tables)
  {
    forall i | 0 <= i < |tables| ensures NextReady(SchemaOf(tables), tables, i) {
      SchemaOfUnique(tables, tables[i]);
    }
  }

  class Sorter {
    const tableMap: Schema
    var visited: set<string>
    var visiting: set<string>
    var sorted: seq<Table>

    constructor (m: Schema)
      requires forall n :: n in m ==> m[n].name == n
      ensures tableMap == m && visited == {} && visiting == {} && sorted == []
      ensures Valid([])
    {
      tableMap := m;
      visited, visiting, sorted := {}, {}, [];
    }

    /** `stack` is the chain of tables the search is inside, outermost first. */
    ghost predicate Valid(stack: seq<string>)
      reads this
    {
      && (forall n :: n in tableMap ==> tableMap[n].name == n)
      && visited == Names(sorted) && visited !! visiting && visited <= tableMap.Keys
      && visiting == (set n | n in stack)
      && (stack != [] ==> IsPath(tableMap, stack))
      && (forall n :: n in stack ==> n in tableMap)
      && UniqueNames(sorted)
      && (forall t :: t in sorted ==> t == tableMap[t.name])
      && OnlyCyclesOutOfOrder(tableMap, sorted)
    }

    method Visit(name: string, ghost stack: seq<string>)
      requires Valid(stack) && name in tableMap
      requires stack != [] ==> References(tableMap, stack[|stack| - 1], name)
      modifies this
      ensures Valid(stack) && visiting == old(visiting)
      ensures old(sorted) <= sorted && old(visited) <= visited
      ensures name in visited || name in visiting
      ensures name in old(visited) || name in old(visiting) ==> sorted == old(sorted)
      ensures (name !in old(visited) && name !in old(visiting)
               && forall v :: References(tableMap, name, v) ==> v in old(visited))
              ==> sorted == old(sorted) + [tableMap[name]]
      decreases tableMap.Keys - visited - visiting
    {
      if name in visited { return; }
      if name in visiting { return; }
      ghost var inside := stack + [name];
      visiting := visiting + {name};
      assert IsPath(tableMap, inside);
      ghost var before := sorted;

      var table := tableMap[name];
      for i := 0 to |table.references|
        invariant Valid(inside) && visiting == old(visiting) + {name}
        invariant before <= sorted && old(visited) <= visited
        invariant forall k :: 0 <= k < i && References(tableMap, name, table.references[k]) ==>
            table.references[k] in visited || table.references[k] in visiting
        invariant (forall v :: References(tableMap, name, v) ==> v in old(visited)) ==> sorted == before
      {
        var referenced := table.references[i];
        if referenced != name && referenced in tableMap {
          assert References(tableMap, name, referenced);
          Visit(referenced, inside);
        }
      }

      BackReferencesAreCyclic(tableMap, inside, name, visited);
      AppendFinished(tableMap, sorted, table);
      visiting := visiting - {name};
      visited := visited + {name};
      sorted := sorted + [table];
    }

    method VisitAll(tables: seq<Table>)
      requires Valid([]) && sorted == []
      requires forall k :: 0 <= k < |tables| ==> tables[k].name in tableMap
      modifies this
      ensures Valid([])
      ensures forall k :: 0 <= k < |tables| ==> tables[k].name in visited
      ensures AlwaysReady(tableMap, tables) ==> sorted == tables
    {
      for i := 0 to |tables|
        invariant Valid([])
        invariant forall k :: 0 <= k < i ==> tables[k].name in visited
        invariant AlwaysReady(tableMap, tables) ==> sorted == tables[..i]
      {
        VisitNext(tables, i);
      }
    }

    method VisitNext(tables: seq<Table>, i: nat)
      requires Valid([]) && i < |tables| && tables[i].name in tableMap
      modifies this
      ensures Valid([]) && old(visited) <= visited && tables[i].name in visited
      ensures NextReady(tableMap, tables, i) && old(sorted) == tables[..i] ==> sorted == tables[..i + 1]
    {
      Visit(tables[i].name, []);
      assert tables[..i + 1] == tables[..i] + [tables[i]];
    }
  }

  method FillMap(tables: seq<Table>) returns (tableMap: Schema)
    ensures tableMap == SchemaOf(tables)
  {
    tableMap := map[];
    for i := 0 to |tables|
      invariant tableMap == SchemaOf(tables[..i])
    {
      tableMap := tableMap[tables[i].name := tables[i]];
      assert tables[..i + 1][..i] == tables[..i];
    }
    assert tables[..|tables|] == tables;
  }

  /** The result lists each table name once, as last defined. A reference to a table
      that comes later lies on a foreign-key cycle through both tables, so the result is
      in dependency order exactly when the schema has no cycle. A list already in
      dependency order is returned as it is. */
  method TopologicalSort(tables: seq<Table>) returns (sorted: seq<Table>)
    ensures UniqueNames(sorted) && Names(sorted) == Names(tables)
    ensures forall t :: t in sorted ==> t == SchemaOf(tables)[t.name]
    ensures multiset(sorted) == multiset(tables) <==> UniqueNames(tables)
    ensures OnlyCyclesOutOfOrder(SchemaOf(tables), sorted)
    ensures InDependencyOrder(SchemaOf(tables), sorted) <==> Acyclic(SchemaOf(tables))
    ensures UniqueNames(tables) && InDependencyOrder(SchemaOf(tables), tables) ==> sorted == tables
  {
    var tableMap := FillMap(tables);
    var search := new Sorter(tableMap);
    assert forall k :: 0 <= k < |tables| ==> tables[k].name in Names(tables);
    search.VisitAll(tables);
    sorted := search.sorted;
    RearrangementIffUnique(tables, sorted);
    OrderedIffAcyclic(tableMap, sorted);
    if UniqueNames(tables) && InDependencyOrder(tableMap, tables) {
      OrderedIsAlwaysReady(tables);
    }
  }
}
