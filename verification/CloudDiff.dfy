/** Snapshots of the local resources, the changes between two sets of resource hashes, and
    three-way conflict detection. */
module CloudDiff {
  import opened Wrappers
  import opened CodeUnits
  import opened CanonicalJson

  type Hashes = map<Text, Text>

  const SHA256_PREFIX: Text := [115, 104, 97, 50, 53, 54, 58]  // sha256:
  const UNKNOWN: Text := [117, 110, 107, 110, 111, 119, 110]   // unknown

  // ---------------------------------------------------------------- snapshots

  datatype ResourceInput = ResourceInput(resource: Text, id: Text, data: Json)

  datatype SnapshotEntry = SnapshotEntry(hash: Text, data: Json)

  // `order` lists the keys of `resources` in insertion order.
  datatype Snapshot = Snapshot(resources: map<Text, SnapshotEntry>, order: seq<Text>, stateHash: Text)

  function JoinKey(resource: Text, id: Text): Text {
    resource + [COLON] + id
  }

  function HashOf(sha256: Text -> Text, data: Json): Text {
    SHA256_PREFIX + sha256(CanonicalStringify(data))
  }

  ghost predicate Injective(sha256: Text -> Text) {
    forall a, b :: sha256(a) == sha256(b) ==> a == b
  }

  /** A hash is the digest of the canonical text under the name of the algorithm; a key joins
      resource and identifier by a colon. */
  lemma HashesAndKeys(sha256: Text -> Text, data: Json, resource: Text, id: Text)
    ensures HashOf(sha256, data) == Ascii("sha256:") + sha256(CanonicalStringify(data))
    ensures JoinKey(resource, id) == resource + Ascii(":") + id
  {
    hide CanonicalStringify;
  }

  /** Resources hash alike exactly when they are the same data up to key order. */
  lemma HashAlikeIff(sha256: Text -> Text, a: Json, b: Json)
    requires WellFormed(a) && WellFormed(b) && Injective(sha256)
    ensures HashOf(sha256, a) == HashOf(sha256, b) <==> Equivalent(a, b)
  {
    CanonicalIff(a, b);
    assert HashOf(sha256, a)[|SHA256_PREFIX|..] == sha256(CanonicalStringify(a));
    assert HashOf(sha256, b)[|SHA256_PREFIX|..] == sha256(CanonicalStringify(b));
  }

  ghost function HashesOf(resources: map<Text, SnapshotEntry>): Hashes {
    map k | k in resources :: resources[k].hash
  }

  ghost predicate IsOrderOf(order: seq<Text>, keys: set<Text>) {
    && (forall k :: k in order <==> k in keys)
    && forall i, j :: 0 <= i < j < |order| ==> order[i] != order[j]
  }

  /** The hash map as the object whose canonical text is hashed. */
  function HashObject(resources: map<Text, SnapshotEntry>, order: seq<Text>): Json
    requires forall k :: k in order ==> k in resources
  {
    Object(seq(|order|, i requires 0 <= i < |order| => Member(order[i], String(resources[order[i]].hash))))
  }

  ghost predicate LastInputFor(inputs: seq<ResourceInput>, i: int, k: Text) {
    && 0 <= i < |inputs| && JoinKey(inputs[i].resource, inputs[i].id) == k
    && forall j :: i < j < |inputs| ==> JoinKey(inputs[j].resource, inputs[j].id) != k
  }

  ghost predicate Describes(resources: map<Text, SnapshotEntry>, inputs: seq<ResourceInput>, sha256: Text -> Text) {
    && (forall i :: 0 <= i < |inputs| ==> JoinKey(inputs[i].resource, inputs[i].id) in resources)
    && forall k :: k in resources ==> EntryOf(resources[k], inputs, sha256, k)
  }

  ghost predicate EntryOf(e: SnapshotEntry, inputs: seq<ResourceInput>, sha256: Text -> Text, k: Text) {
    exists i :: LastInputFor(inputs, i, k) && e == SnapshotEntry(HashOf(sha256, inputs[i].data), inputs[i].data)
  }

  lemma NewestEntry(inputs: seq<ResourceInput>, n: nat, sha256: Text -> Text)
    requires n < |inputs|
    ensures var x := inputs[n];
      EntryOf(SnapshotEntry(HashOf(sha256, x.data), x.data), inputs[..n + 1], sha256, JoinKey(x.resource, x.id))
  {
    hide HashOf, JoinKey;
    assert LastInputFor(inputs[..n + 1], n, JoinKey(inputs[n].resource, inputs[n].id));
  }

  lemma EarlierEntry(e: SnapshotEntry, inputs: seq<ResourceInput>, n: nat, sha256: Text -> Text, k: Text)
    requires n < |inputs| && EntryOf(e, inputs[..n], sha256, k) && k != JoinKey(inputs[n].resource, inputs[n].id)
    ensures EntryOf(e, inputs[..n + 1], sha256, k)
  {
    hide HashOf, JoinKey;
    var i :| LastInputFor(inputs[..n], i, k)
      && e == SnapshotEntry(HashOf(sha256, inputs[..n][i].data), inputs[..n][i].data);
    assert inputs[..n + 1] == inputs[..n] + [inputs[n]];
    assert LastInputFor(inputs[..n + 1], i, k);
  }

  lemma DescribesOneMore(resources: map<Text, SnapshotEntry>, inputs: seq<ResourceInput>, n: nat, sha256: Text -> Text)
    requires n < |inputs| && Describes(resources, inputs[..n], sha256)
    ensures var x := inputs[n];
      Describes(resources[JoinKey(x.resource, x.id) := SnapshotEntry(HashOf(sha256, x.data), x.data)],
                inputs[..n + 1], sha256)
  {
    hide HashOf, JoinKey, LastInputFor, EntryOf;
    var x, before, after := inputs[n], inputs[..n], inputs[..n + 1];
    var key := JoinKey(x.resource, x.id);
    var next := resources[key := SnapshotEntry(HashOf(sha256, x.data), x.data)];
    forall k | k in next ensures EntryOf(next[k], after, sha256, k) {
      if k == key {
        NewestEntry(inputs, n, sha256);
      } else {
        EarlierEntry(resources[k], inputs, n, sha256, k);
      }
    }
    forall i | 0 <= i < |after| ensures JoinKey(after[i].resource, after[i].id) in next {
      if i < n {
        assert after[i] == before[i];
      }
    }
  }

  /** One entry per key, from the last input with that key. */
  method BuildSnapshot(inputs: seq<ResourceInput>, sha256: Text -> Text) returns (s: Snapshot)
    ensures Describes(s.resources, inputs, sha256) && IsOrderOf(s.order, s.resources.Keys)
    ensures s.stateHash == HashOf(sha256, HashObject(s.resources, s.order))
  {
    var resources: map<Text, SnapshotEntry> := map[];
    var order: seq<Text> := [];
    for i := 0 to |inputs|
      invariant Describes(resources, inputs[..i], sha256) && IsOrderOf(order, resources.Keys)
    {
      var input := inputs[i];
      var key := JoinKey(input.resource, input.id);
      DescribesOneMore(resources, inputs, i, sha256);
      if key !in resources {
        order := order + [key];
      }
      resources := resources[key := SnapshotEntry(HashOf(sha256, input.data), input.data)];
    }
    assert inputs[..|inputs|] == inputs;
    s := Snapshot(resources, order, HashOf(sha256, HashObject(resources, order)));
  }

  /** State hashes are equal exactly when the two hash maps are, in whatever order the
      resources were collected. */
  lemma StateHashIff(sha256: Text -> Text, a: map<Text, SnapshotEntry>, ao: seq<Text>,
                     b: map<Text, SnapshotEntry>, bo: seq<Text>)
    requires Injective(sha256) && IsOrderOf(ao, a.Keys) && IsOrderOf(bo, b.Keys)
    ensures HashOf(sha256, HashObject(a, ao)) == HashOf(sha256, HashObject(b, bo)) <==> HashesOf(a) == HashesOf(b)
  {
    HashAlikeIff(sha256, HashObject(a, ao), HashObject(b, bo));
    var xs, ys := HashObject(a, ao).members, HashObject(b, bo).members;
    if HashesOf(a) == HashesOf(b) {
      SameHashesSameObject(a, ao, b, bo);
    }
    if Equivalent(HashObject(a, ao), HashObject(b, bo)) {
      SameObjectSameHashes(a, ao, b, bo);
    }
  }

  lemma SameHashesSameObject(a: map<Text, SnapshotEntry>, ao: seq<Text>, b: map<Text, SnapshotEntry>, bo: seq<Text>)
    requires IsOrderOf(ao, a.Keys) && IsOrderOf(bo, b.Keys) && HashesOf(a) == HashesOf(b)
    ensures Equivalent(HashObject(a, ao), HashObject(b, bo))
  {
    var xs, ys := HashObject(a, ao).members, HashObject(b, bo).members;
    assert a.Keys == HashesOf(a).Keys == HashesOf(b).Keys == b.Keys;
    forall i | 0 <= i < |xs| ensures HasKey(ys, xs[i].key) {
      assert ao[i] in bo;
      var j :| 0 <= j < |bo| && bo[j] == ao[i];
      assert ys[j].key == xs[i].key;
    }
    forall j | 0 <= j < |ys| ensures HasKey(xs, ys[j].key) {
      assert bo[j] in ao;
      var i :| 0 <= i < |ao| && ao[i] == bo[j];
      assert xs[i].key == ys[j].key;
    }
    forall i, j | 0 <= i < |xs| && 0 <= j < |ys| && xs[i].key == ys[j].key
      ensures Equivalent(xs[i].value, ys[j].value)
    {
      assert HashesOf(a)[ao[i]] == HashesOf(b)[bo[j]];
    }
  }

  lemma SameObjectSameHashes(a: map<Text, SnapshotEntry>, ao: seq<Text>, b: map<Text, SnapshotEntry>, bo: seq<Text>)
    requires IsOrderOf(ao, a.Keys) && IsOrderOf(bo, b.Keys)
    requires Equivalent(HashObject(a, ao), HashObject(b, bo))
    ensures HashesOf(a) == HashesOf(b)
  {
    forall k ensures k in a ==> k in b && a[k].hash == b[k].hash
      ensures k in b ==> k in a
    {
      if k in a {
        SameEntryHash(a, ao, b, bo, k);
      }
      if k in b {
        var xs, ys := HashObject(a, ao).members, HashObject(b, bo).members;
        var j :| 0 <= j < |bo| && bo[j] == k;
        assert HasKey(xs, ys[j].key);
        var i :| 0 <= i < |xs| && xs[i].key == ys[j].key;
        assert ao[i] in ao;
      }
    }
  }

  lemma SameEntryHash(a: map<Text, SnapshotEntry>, ao: seq<Text>, b: map<Text, SnapshotEntry>, bo: seq<Text>, k: Text)
    requires IsOrderOf(ao, a.Keys) && IsOrderOf(bo, b.Keys) && k in a
    requires Equivalent(HashObject(a, ao), HashObject(b, bo))
    ensures k in b && a[k].hash == b[k].hash
  {
    var xs, ys := HashObject(a, ao).members, HashObject(b, bo).members;
    var i :| 0 <= i < |ao| && ao[i] == k;
    assert HasKey(ys, xs[i].key);
    var j :| 0 <= j < |ys| && ys[j].key == xs[i].key;
    assert Equivalent(xs[i].value, ys[j].value);
    assert bo[j] in bo;
  }

  // ------------------------------------------------------------------ changes

  datatype Change =
    | Upsert(resource: Text, localId: Text, hash: Text, data: Json)
    | Delete(resource: Text, localId: Text)

  function IndexOf(s: Text, u: Unit): (r: Option<nat>)
    ensures r.Some? <==> u in s
    ensures r.Some? ==> r.value < |s| && s[r.value] == u && u !in s[..r.value]
  {
    if s == [] then None
    else if s[0] == u then Some(0)
    else
      var rest := IndexOf(s[1..], u);
      if rest.None? then None
      else
        assert s[..rest.value + 1] == [s[0]] + s[1..][..rest.value];
        Some(rest.value + 1)
  }

  function ParseKey(key: Text): (Text, Text) {
    var i := IndexOf(key, COLON);
    if i.None? then (UNKNOWN, key) else (key[..i.value], key[i.value + 1..])
  }

  lemma {:induction false} FirstColon(resource: Text, id: Text)
    requires COLON !in resource
    ensures IndexOf(JoinKey(resource, id), COLON) == Some(|resource|)
  {
    if resource == [] {
      assert JoinKey(resource, id)[0] == COLON;
    } else {
      assert JoinKey(resource, id)[1..] == JoinKey(resource[1..], id);
      FirstColon(resource[1..], id);
    }
  }

  /** Joining what a key was parsed into gives the key back exactly if it has a colon;
      parsing what was joined gives back resource and id exactly if the resource has no
      colon. */
  lemma KeyRoundTrip(key: Text, resource: Text, id: Text)
    ensures JoinKey(ParseKey(key).0, ParseKey(key).1) == key <==> COLON in key
    ensures ParseKey(JoinKey(resource, id)) == (resource, id) <==> COLON !in resource
  {
    var joined := JoinKey(resource, id);
    var n := |resource|;
    assert joined[n] == COLON;
    var i := IndexOf(joined, COLON).value;
    if COLON !in resource {
      FirstColon(resource, id);
      assert joined[..n] == resource && joined[n + 1..] == id;
    } else {
      assert joined[..i] != resource;
    }
    if IndexOf(key, COLON).None? {
      assert |JoinKey(UNKNOWN, key)| > |key|;
    }
  }

  lemma KeyWithoutColon(key: Text)
    requires ':' as int !in key
    ensures ParseKey(key) == (Ascii("unknown"), key)
  {
    assert IndexOf(key, COLON).None?;
    assert UNKNOWN == Ascii("unknown");
  }

  function KeyOf(c: Change): Text {
    JoinKey(c.resource, c.localId)
  }

  /** What the server does with one change to its hash map. */
  function Apply(h: Hashes, c: Change): Hashes {
    match c
    case Upsert(_, _, hash, _) => h[KeyOf(c) := hash]
    case Delete(_, _) => h - {KeyOf(c)}
  }

  function ApplyAll(h: Hashes, cs: seq<Change>): Hashes {
    if cs == [] then h else Apply(ApplyAll(h, cs[..|cs| - 1]), cs[|cs| - 1])
  }

  function Get(h: Hashes, k: Text): Option<Text> {
    if k in h then Some(h[k]) else None
  }

  ghost predicate ColonKeys(keys: set<Text>) {
    forall k :: k in keys ==> COLON in k
  }

  /** One change for each key whose hash differs, saying what `target` has there. */
  ghost predicate IsDelta(base: Hashes, target: Hashes, cs: seq<Change>) {
    && (forall i, j :: 0 <= i < j < |cs| ==> KeyOf(cs[i]) != KeyOf(cs[j]))
    && (forall i :: 0 <= i < |cs| ==> Changes(base, target, cs[i]))
    && (forall k :: Get(base, k) != Get(target, k) ==> exists i :: 0 <= i < |cs| && KeyOf(cs[i]) == k)
  }

  ghost predicate Changes(base: Hashes, target: Hashes, c: Change) {
    && Get(base, KeyOf(c)) != Get(target, KeyOf(c))
    && Get(target, KeyOf(c)) == (if c.Upsert? then Some(c.hash) else None)
  }

  /** The change for a key, as the two loops make it. */
  function ChangeFor(local: map<Text, SnapshotEntry>, key: Text): Change {
    var (resource, id) := ParseKey(key);
    if key in local then Upsert(resource, id, local[key].hash, local[key].data) else Delete(resource, id)
  }

  function HashIn(local: map<Text, SnapshotEntry>, key: Text): Option<Text> {
    if key in local then Some(local[key].hash) else None
  }

  /** The changes are those for `keys`, which are the keys of `among` that differ, each
      once. */
  ghost predicate DiffOn(base: Hashes, local: map<Text, SnapshotEntry>, keys: seq<Text>, cs: seq<Change>,
                         among: set<Text>)
  {
    && |keys| == |cs| && (forall i, j :: 0 <= i < j < |keys| ==> keys[i] != keys[j])
    && (forall i :: 0 <= i < |keys| ==> cs[i] == ChangeFor(local, keys[i]))
    && (forall k :: k in keys <==> k in among && Get(base, k) != HashIn(local, k))
  }

  ghost predicate IsDiff(base: Hashes, local: map<Text, SnapshotEntry>, cs: seq<Change>) {
    exists keys :: DiffOn(base, local, keys, cs, base.Keys + local.Keys)
  }

  method DiffSnapshot(base: Hashes, local: map<Text, SnapshotEntry>) returns (changes: seq<Change>)
    ensures IsDiff(base, local, changes)
    // First what is new, then what has gone.
    ensures UpsertsFirst(changes)
  {
    hide DiffOn;
    ghost var differing;
    var upserts;
    upserts, differing := AddUpserts(base, local);
    changes, differing := AddDeletes(base, local, upserts, differing);
    InThisOrder(upserts, changes);
    assert local.Keys + base.Keys == base.Keys + local.Keys;
  }

  ghost predicate UpsertsFirst(changes: seq<Change>) {
    forall i, j :: 0 <= i < j < |changes| && changes[i].Delete? ==> changes[j].Delete?
  }

  ghost predicate OnlyUpserts(changes: seq<Change>) {
    forall i :: 0 <= i < |changes| ==> changes[i].Upsert?
  }

  ghost predicate ThenDeletes(upserts: seq<Change>, changes: seq<Change>) {
    upserts <= changes && forall i :: |upserts| <= i < |changes| ==> changes[i].Delete?
  }

  lemma OneMoreDelete(upserts: seq<Change>, changes: seq<Change>)
    ensures ThenDeletes(upserts, upserts)
    ensures forall resource, id :: ThenDeletes(upserts, changes) ==>
              ThenDeletes(upserts, changes + [Delete(resource, id)])
  {
  }

  lemma InThisOrder(upserts: seq<Change>, changes: seq<Change>)
    requires OnlyUpserts(upserts) && ThenDeletes(upserts, changes)
    ensures UpsertsFirst(changes)
  {
  }

  /** First loop: new and changed resources. */
  method AddUpserts(base: Hashes, local: map<Text, SnapshotEntry>)
    returns (changes: seq<Change>, ghost differing: seq<Text>)
    ensures DiffOn(base, local, differing, changes, local.Keys) && OnlyUpserts(changes)
  {
    hide DiffOn, Get;
    changes, differing := [], [];
    var keys := local.Keys;
    ghost var covered: set<Text> := {};
    DiffOnNothing(base, local);
    while keys != {}
      invariant DiffOn(base, local, differing, changes, covered) && OnlyUpserts(changes)
      invariant forall k :: k in keys ==> k in local && k !in covered
      invariant forall k :: k in covered ==> k in local
      invariant forall k :: k in local ==> k in keys || k in covered
      decreases |keys|
    {
      var key :| key in keys;
      keys := keys - {key};
      DiffOnNext(base, local, differing, changes, covered, key);
      covered := covered + {key};
      if Get(base, key) != Some(local[key].hash) {
        var (resource, id) := ParseKey(key);
        changes := changes + [Upsert(resource, id, local[key].hash, local[key].data)];
        differing := differing + [key];
      }
    }
    assert covered == local.Keys;
  }

  /** Second loop: resources that are gone. */
  method AddDeletes(base: Hashes, local: map<Text, SnapshotEntry>, upserts: seq<Change>, ghost upserted: seq<Text>)
    returns (changes: seq<Change>, ghost differing: seq<Text>)
    requires DiffOn(base, local, upserted, upserts, local.Keys)
    ensures DiffOn(base, local, differing, changes, local.Keys + base.Keys)
    ensures ThenDeletes(upserts, changes)
  {
    hide DiffOn, Get, ThenDeletes;
    changes, differing := upserts, upserted;
    OneMoreDelete(upserts, changes);
    var keys := base.Keys;
    ghost var covered := local.Keys;
    while keys != {}
      invariant DiffOn(base, local, differing, changes, covered)
      invariant ThenDeletes(upserts, changes)
      invariant forall k :: k in keys ==> k in base
      invariant forall k :: k in base ==> k in covered || k in keys
      invariant forall k :: k in covered ==> k in local || (k in base && k !in keys)
      invariant forall k :: k in local ==> k in covered
      decreases |keys|
    {
      var key :| key in keys;
      keys := keys - {key};
      if key !in local {
        InBase(base, key);
        OneMoreDelete(upserts, changes);
        DiffOnNext(base, local, differing, changes, covered, key);
        var (resource, id) := ParseKey(key);
        changes := changes + [Delete(resource, id)];
        differing := differing + [key];
        covered := covered + {key};
      }
    }
    assert covered == local.Keys + base.Keys;
  }

  lemma InBase(base: Hashes, key: Text)
    requires key in base
    ensures Get(base, key).Some?
  {
  }

  lemma DiffOnNothing(base: Hashes, local: map<Text, SnapshotEntry>)
    ensures DiffOn(base, local, [], [], {})
  {
  }

  lemma DiffOnNext(base: Hashes, local: map<Text, SnapshotEntry>, keys: seq<Text>, cs: seq<Change>, among: set<Text>,
                   key: Text)
    requires DiffOn(base, local, keys, cs, among) && key !in among
    ensures Get(base, key) == HashIn(local, key) ==> DiffOn(base, local, keys, cs, among + {key})
    ensures Get(base, key) != HashIn(local, key) ==>
              DiffOn(base, local, keys + [key], cs + [ChangeFor(local, key)], among + {key})
  {
    hide ChangeFor, Get, HashIn;
    assert forall k :: k in keys + [key] <==> k in keys || k == key;
  }

  lemma HashesOfAt(local: map<Text, SnapshotEntry>, key: Text)
    ensures Get(HashesOf(local), key) == HashIn(local, key)
  {
  }

  lemma KeyOfChange(local: map<Text, SnapshotEntry>, key: Text)
    ensures COLON in KeyOf(ChangeFor(local, key))
    ensures COLON in key ==> KeyOf(ChangeFor(local, key)) == key
  {
    KeyRoundTrip(key, [], []);
    var (resource, id) := ParseKey(key);
    assert JoinKey(resource, id)[|resource|] == COLON;
  }

  /** Where all keys have a colon, as `buildSnapshot` makes them, the changes are a delta. */
  lemma DiffIsDelta(base: Hashes, local: map<Text, SnapshotEntry>, cs: seq<Change>)
    requires IsDiff(base, local, cs) && ColonKeys(base.Keys) && ColonKeys(local.Keys)
    ensures IsDelta(base, HashesOf(local), cs)
  {
    var keys :| DiffOn(base, local, keys, cs, base.Keys + local.Keys);
    var target := HashesOf(local);
    hide ChangeFor, KeyOf, HashesOf, ParseKey;
    forall i | 0 <= i < |keys| ensures KeyOf(cs[i]) == keys[i] && Changes(base, target, cs[i]) {
      assert keys[i] in keys;
      KeyOfChange(local, keys[i]);
      HashesOfAt(local, keys[i]);
      ChangeSays(local, keys[i]);
    }
    forall k | Get(base, k) != Get(target, k) ensures exists i :: 0 <= i < |cs| && KeyOf(cs[i]) == k {
      HashesOfAt(local, k);
      assert k in keys;
      var i :| 0 <= i < |keys| && keys[i] == k;
      assert KeyOf(cs[i]) == k;
    }
  }

  lemma ChangeSays(local: map<Text, SnapshotEntry>, key: Text)
    ensures var c := ChangeFor(local, key); HashIn(local, key) == if c.Upsert? then Some(c.hash) else None
  {
  }

  /** The change that a key gives rise to: a resource of the snapshot whose hash is new is sent
      with its hash and data, a key that has gone is deleted, any other key is silent. */
  ghost predicate Says(base: Hashes, local: map<Text, SnapshotEntry>, k: Text, c: Change) {
    var (resource, id) := ParseKey(k);
    if k in local then
      (k !in base || base[k] != local[k].hash) && c == Upsert(resource, id, local[k].hash, local[k].data)
    else k in base && c == Delete(resource, id)
  }

  /** The changes are exactly those that some key gives rise to. */
  lemma DiffSays(base: Hashes, local: map<Text, SnapshotEntry>, cs: seq<Change>)
    requires IsDiff(base, local, cs)
    ensures forall c :: c in cs <==> exists k :: Says(base, local, k, c)
  {
    var keys :| DiffOn(base, local, keys, cs, base.Keys + local.Keys);
    forall c ensures c in cs <==> exists k :: Says(base, local, k, c) {
      if c in cs {
        var i :| 0 <= i < |cs| && cs[i] == c;
        assert keys[i] in keys;
        SaysChange(base, local, keys[i], c);
      }
      if k :| Says(base, local, k, c) {
        SaysChange(base, local, k, c);
        assert k in base.Keys + local.Keys;
        var i :| 0 <= i < |keys| && keys[i] == k;
        assert cs[i] == c;
      }
    }
  }

  lemma SaysChange(base: Hashes, local: map<Text, SnapshotEntry>, k: Text, c: Change)
    ensures Says(base, local, k, c)
            <==> k in base.Keys + local.Keys && Get(base, k) != HashIn(local, k) && c == ChangeFor(local, k)
  {
    hide ParseKey;
  }

  lemma {:induction false} ForeignKeyStays(h: Hashes, cs: seq<Change>, k: Text)
    requires COLON !in k && forall i :: 0 <= i < |cs| ==> COLON in KeyOf(cs[i])
    ensures Get(ApplyAll(h, cs), k) == Get(h, k)
  {
    hide KeyOf;
    if cs != [] {
      ForeignKeyStays(h, cs[..|cs| - 1], k);
    }
  }

  /** The changes rebuild the snapshot from the base exactly if every key of the base has a
      colon: another key is sent as the deletion of something else and stays. */
  lemma DiffRebuildsIff(base: Hashes, local: map<Text, SnapshotEntry>, cs: seq<Change>)
    requires IsDiff(base, local, cs) && ColonKeys(local.Keys)
    ensures ApplyAll(base, cs) == HashesOf(local) <==> ColonKeys(base.Keys)
  {
    if ColonKeys(base.Keys) {
      DiffIsDelta(base, local, cs);
      DeltaRebuilds(base, HashesOf(local), cs);
    } else {
      var k :| k in base.Keys && COLON !in k;
      var keys :| DiffOn(base, local, keys, cs, base.Keys + local.Keys);
      forall i | 0 <= i < |cs| ensures COLON in KeyOf(cs[i]) {
        KeyOfChange(local, keys[i]);
      }
      ForeignKeyStays(base, cs, k);
      assert Get(ApplyAll(base, cs), k).Some? && Get(HashesOf(local), k).None?;
    }
  }

  /** A hash map keeps to keys with a colon under any changes. */
  lemma {:induction false} ApplyAllColon(h: Hashes, cs: seq<Change>)
    requires ColonKeys(h.Keys)
    ensures ColonKeys(ApplyAll(h, cs).Keys)
  {
    if cs != [] {
      ApplyAllColon(h, cs[..|cs| - 1]);
      var c := cs[|cs| - 1];
      assert JoinKey(c.resource, c.localId)[|c.resource|] == COLON;
    }
  }

  /** Applying the changes touches exactly their keys. */
  lemma {:induction false} ApplyAllAt(h: Hashes, cs: seq<Change>, k: Text)
    requires forall i, j :: 0 <= i < j < |cs| ==> KeyOf(cs[i]) != KeyOf(cs[j])
    ensures (forall i :: 0 <= i < |cs| ==> KeyOf(cs[i]) != k) ==> Get(ApplyAll(h, cs), k) == Get(h, k)
    ensures forall i :: 0 <= i < |cs| && KeyOf(cs[i]) == k ==>
              Get(ApplyAll(h, cs), k) == (if cs[i].Upsert? then Some(cs[i].hash) else None)
  {
    hide KeyOf;
    if cs != [] {
      ApplyAllAt(h, cs[..|cs| - 1], k);
    }
  }

  /** What a delta does to any hash map: `target`'s value on the keys that differ, no
      effect elsewhere. */
  lemma DeltaAt(base: Hashes, target: Hashes, cs: seq<Change>, h: Hashes, k: Text)
    requires IsDelta(base, target, cs)
    ensures Get(ApplyAll(h, cs), k) == if Get(base, k) != Get(target, k) then Get(target, k) else Get(h, k)
  {
    ApplyAllAt(h, cs, k);
    if Get(base, k) != Get(target, k) {
      var i :| 0 <= i < |cs| && KeyOf(cs[i]) == k;
    }
  }

  lemma SameEverywhere(g: Hashes, h: Hashes)
    requires forall k :: Get(g, k) == Get(h, k)
    ensures g == h
  {
    forall k ensures k in g <==> k in h
      ensures k in g ==> k in h && g[k] == h[k]
    {
      assert Get(g, k) == Get(h, k);
    }
  }

  /** Applying the changes to the base gives exactly the local hash map. */
  lemma DeltaRebuilds(base: Hashes, target: Hashes, cs: seq<Change>)
    requires IsDelta(base, target, cs)
    ensures ApplyAll(base, cs) == target
  {
    forall k ensures Get(ApplyAll(base, cs), k) == Get(target, k) {
      DeltaAt(base, target, cs, base, k);
    }
    SameEverywhere(ApplyAll(base, cs), target);
  }

  // ---------------------------------------------------------------- conflicts

  datatype ConflictReport = ConflictReport(
    hasConflict: bool, conflictedKeys: seq<Text>, localOnlyKeys: seq<Text>, cloudOnlyKeys: seq<Text>)

  ghost predicate Conflicted(base: Hashes, local: Hashes, remote: Hashes, k: Text) {
    Get(local, k) != Get(base, k) && Get(remote, k) != Get(base, k) && Get(local, k) != Get(remote, k)
  }

  datatype Side = Both | LocalOnly | CloudOnly | Neither

  /** Who changed a key: both in different ways, the local side (also when the cloud made
      the same change), only the cloud, or nobody. */
  ghost function SideOf(base: Hashes, local: Hashes, remote: Hashes, k: Text): Side {
    if Conflicted(base, local, remote, k) then Both
    else if Get(local, k) != Get(base, k) then LocalOnly
    else if Get(remote, k) != Get(base, k) then CloudOnly
    else Neither
  }

  /** The keys of one side, each once. */
  ghost predicate Lists(list: seq<Text>, among: set<Text>, base: Hashes, local: Hashes, remote: Hashes, side: Side) {
    && (forall i, j :: 0 <= i < j < |list| ==> list[i] != list[j])
    && forall k :: k in list <==> k in among && SideOf(base, local, remote, k) == side
  }

  ghost predicate ListsAll(r: ConflictReport, among: set<Text>, base: Hashes, local: Hashes, remote: Hashes) {
    && Lists(r.conflictedKeys, among, base, local, remote, Both)
    && Lists(r.localOnlyKeys, among, base, local, remote, LocalOnly)
    && Lists(r.cloudOnlyKeys, among, base, local, remote, CloudOnly)
  }

  lemma ListsMore(list: seq<Text>, among: set<Text>, base: Hashes, local: Hashes, remote: Hashes, side: Side, key: Text)
    requires Lists(list, among, base, local, remote, side) && key !in among
    ensures Lists(if SideOf(base, local, remote, key) == side then list + [key] else list, among + {key},
                  base, local, remote, side)
  {
    hide SideOf;
    assert forall k :: k in list + [key] <==> k in list || k == key;
  }

  lemma SideOfKey(base: Hashes, local: map<Text, SnapshotEntry>, remote: Hashes, k: Text)
    ensures var b, r, l := Get(base, k), Get(remote, k), HashIn(local, k);
      SideOf(base, HashesOf(local), remote, k)
      == if l != b && r != b && l != r then Both
         else if l != b then LocalOnly
         else if r != b then CloudOnly
         else Neither
  {
  }

  method DetectConflicts(base: Hashes, local: map<Text, SnapshotEntry>, remote: Hashes) returns (report: ConflictReport)
    ensures ListsAll(report, base.Keys + local.Keys + remote.Keys, base, HashesOf(local), remote)
    ensures report.hasConflict <==> exists k :: Conflicted(base, HashesOf(local), remote, k)
  {
    hide Lists, SideOf, Conflicted, Get, HashIn;
    ghost var mine := HashesOf(local);
    ghost var all := base.Keys + local.Keys + remote.Keys;
    report := ConflictReport(false, [], [], []);
    var keys := base.Keys + local.Keys + remote.Keys;
    EmptyLists(base, mine, remote);
    assert all - keys == {};
    while keys != {}
      invariant keys <= all && ListsAll(report, all - keys, base, mine, remote)
      decreases |keys|
    {
      var key :| key in keys;
      ListsMore(report.conflictedKeys, all - keys, base, mine, remote, Both, key);
      ListsMore(report.localOnlyKeys, all - keys, base, mine, remote, LocalOnly, key);
      ListsMore(report.cloudOnlyKeys, all - keys, base, mine, remote, CloudOnly, key);
      assert all - (keys - {key}) == (all - keys) + {key};
      keys := keys - {key};
      var baseHash, remoteHash := Get(base, key), Get(remote, key);
      var localHash := HashIn(local, key);
      var localChanged, remoteChanged := localHash != baseHash, remoteHash != baseHash;
      SideOfKey(base, local, remote, key);
      if localChanged && remoteChanged && localHash != remoteHash {
        report := report.(conflictedKeys := report.conflictedKeys + [key]);
      } else if localChanged {
        report := report.(localOnlyKeys := report.localOnlyKeys + [key]);
      } else if remoteChanged {
        report := report.(cloudOnlyKeys := report.cloudOnlyKeys + [key]);
      }
    }
    assert all - keys == all;
    report := report.(hasConflict := |report.conflictedKeys| > 0);
    ConflictsListed(report.conflictedKeys, all, base, mine, remote);
  }

  lemma EmptyLists(base: Hashes, local: Hashes, remote: Hashes)
    ensures ListsAll(ConflictReport(false, [], [], []), {}, base, local, remote)
  {
  }

  lemma ConflictsListed(list: seq<Text>, all: set<Text>, base: Hashes, local: Hashes, remote: Hashes)
    requires Lists(list, all, base, local, remote, Both) && base.Keys + local.Keys + remote.Keys <= all
    ensures list != [] <==> exists k :: Conflicted(base, local, remote, k)
  {
    if list != [] {
      assert list[0] in list;
    }
    forall k | Conflicted(base, local, remote, k) ensures k in list {
    }
  }

  /** The lists of a report partition the keys that either side changed. */
  lemma ReportPartitions(r: ConflictReport, base: Hashes, local: Hashes, remote: Hashes, k: Text)
    requires ListsAll(r, base.Keys + local.Keys + remote.Keys, base, local, remote)
    ensures k in r.conflictedKeys || k in r.localOnlyKeys || k in r.cloudOnlyKeys
            <==> Get(local, k) != Get(base, k) || Get(remote, k) != Get(base, k)
    ensures !(k in r.conflictedKeys && k in r.localOnlyKeys)
    ensures !(k in r.conflictedKeys && k in r.cloudOnlyKeys)
    ensures !(k in r.localOnlyKeys && k in r.cloudOnlyKeys)
  {
    assert SideOf(base, local, remote, k).Neither? || k in base.Keys + local.Keys + remote.Keys;
  }

  /** The local and the remote changes can be applied to the base in either order exactly
      when no key is in conflict. */
  lemma CommuteIffNoConflict(base: Hashes, local: Hashes, remote: Hashes, mine: seq<Change>, theirs: seq<Change>)
    requires IsDelta(base, local, mine) && IsDelta(base, remote, theirs)
    ensures ApplyAll(ApplyAll(base, mine), theirs) == ApplyAll(ApplyAll(base, theirs), mine)
            <==> forall k :: !Conflicted(base, local, remote, k)
  {
    hide IsDelta, ApplyAll;
    var ab, ba := ApplyAll(ApplyAll(base, mine), theirs), ApplyAll(ApplyAll(base, theirs), mine);
    forall k ensures Get(ab, k) == Get(ba, k) <==> !Conflicted(base, local, remote, k) {
      DeltaAt(base, local, mine, base, k);
      DeltaAt(base, remote, theirs, ApplyAll(base, mine), k);
      DeltaAt(base, remote, theirs, base, k);
      DeltaAt(base, local, mine, ApplyAll(base, theirs), k);
    }
    if forall k :: !Conflicted(base, local, remote, k) {
      SameEverywhere(ab, ba);
    }
  }
}
