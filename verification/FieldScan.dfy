/** Schema discovery for MongoDB collections: scanning sampled documents into one
    accumulator per dotted path. */
module FieldScan {

  datatype FieldType =
    | NullType | UndefinedType | StringType | BooleanType | IntType | LongType | DoubleType | DateType
    | ArrayType | ObjectIdType | DecimalType | BinDataType | TimestampType | RegexType | ObjectType

  // The `_bsontype` tag of an object; plain objects have none. A class instance that
  // only its constructor name marks as an ObjectId counts as tagged.
  datatype BsonTag =
    | NoTag | ObjectIdTag | Decimal128Tag | LongTag | BinaryTag | TimestampTag | BSONRegExpTag | OtherTag

  datatype Value =
    | Null | Undefined | Text(text: string) | Boolean(b: bool) | Integer(n: int) | Fraction(r: real) | Date
    | Array(elements: seq<Value>)
    | Object(bsonTag: BsonTag, members: seq<Member>)

  datatype Member = Member(key: string, value: Value)

  function DetectFieldType(v: Value): FieldType {
    match v
    case Null => NullType
    case Undefined => UndefinedType
    case Text(_) => StringType
    case Boolean(_) => BooleanType
    case Integer(n) => if n > 2147483647 || n < -2147483648 then LongType else IntType
    case Fraction(_) => DoubleType
    case Date => DateType
    case Array(_) => ArrayType
    case Object(ObjectIdTag, _) => ObjectIdType
    case Object(Decimal128Tag, _) => DecimalType
    case Object(LongTag, _) => LongType
    case Object(BinaryTag, _) => BinDataType
    case Object(TimestampTag, _) => TimestampType
    case Object(BSONRegExpTag, _) => RegexType
    case Object(_, _) => ObjectType
  }

  /** The types, from the type's side: an integer is long beyond 32 bits, and an object is
      what its tag says, plain or of an unknown tag otherwise. */
  lemma TypesAre(v: Value)
    ensures DetectFieldType(v).NullType? <==> v.Null?
    ensures DetectFieldType(v).UndefinedType? <==> v.Undefined?
    ensures DetectFieldType(v).StringType? <==> v.Text?
    ensures DetectFieldType(v).BooleanType? <==> v.Boolean?
    ensures DetectFieldType(v).IntType? <==> v.Integer? && -0x8000_0000 <= v.n <= 0x7FFF_FFFF
    ensures DetectFieldType(v).LongType? <==>
              (v.Integer? && !(-0x8000_0000 <= v.n <= 0x7FFF_FFFF)) || (v.Object? && v.bsonTag.LongTag?)
    ensures DetectFieldType(v).DoubleType? <==> v.Fraction?
    ensures DetectFieldType(v).DateType? <==> v.Date?
    ensures DetectFieldType(v).ArrayType? <==> v.Array?
    ensures DetectFieldType(v).ObjectIdType? <==> v.Object? && v.bsonTag.ObjectIdTag?
    ensures DetectFieldType(v).DecimalType? <==> v.Object? && v.bsonTag.Decimal128Tag?
    ensures DetectFieldType(v).BinDataType? <==> v.Object? && v.bsonTag.BinaryTag?
    ensures DetectFieldType(v).TimestampType? <==> v.Object? && v.bsonTag.TimestampTag?
    ensures DetectFieldType(v).RegexType? <==> v.Object? && v.bsonTag.BSONRegExpTag?
    ensures DetectFieldType(v).ObjectType? <==> v.Object? && (v.bsonTag.NoTag? || v.bsonTag.OtherTag?)
  {
  }

  predicate IsSpecialBsonType(v: Value) {
    v.Date? || (v.Object? && v.bsonTag != NoTag)
  }

  const MAX_SAMPLE_VALUES := 5
  const MAX_ARRAY_ELEMENTS := 100

  datatype Accumulator = Accumulator(
    name: string, count: nat, typeCounts: map<FieldType, nat>, isArray: bool, isObjectId: bool,
    isNestedObject: bool, sampleValues: seq<Value>, depth: nat, arrayElementTypes: set<FieldType>)

  type FieldMap = map<string, Accumulator>

  function CountOfType(counts: map<FieldType, nat>, t: FieldType): nat {
    if t in counts then counts[t] else 0
  }

  function PathOf(prefix: string, key: string): string {
    if prefix == "" then key else prefix + "." + key
  }

  /** A path is the keys from the outside in, with dots between them. */
  lemma PathsAre(prefix: string, key: string)
    ensures PathOf("", key) == key
    ensures prefix != "" ==> PathOf(prefix, key) == prefix + "." + key
  {
  }

  function Scanned(elements: seq<Value>): seq<Value> {
    if |elements| <= MAX_ARRAY_ELEMENTS then elements else elements[..MAX_ARRAY_ELEMENTS]
  }

  // ------------------------------------------------- the scan as a list of events

  // What the scan notes about a path, in the order it notes it.
  datatype Event =
    | FieldSeen(path: string, name: string, value: Value, depth: nat)
    | ElementSeen(path: string, elementType: FieldType)
    | NestedSeen(path: string)

  ghost function Events(doc: Value, prefix: string, depth: nat): seq<Event>
    decreases doc, 1
  {
    if doc.Object? then MemberEvents(doc.members, prefix, depth) else []
  }

  ghost function MemberEvents(members: seq<Member>, prefix: string, depth: nat): seq<Event>
    decreases members, 0
  {
    if members == [] then []
    else MemberEvents(members[..|members| - 1], prefix, depth)
         + EventsOfMember(members[|members| - 1], prefix, depth)
  }

  ghost function EventsOfMember(m: Member, prefix: string, depth: nat): seq<Event>
    decreases m, 1
  {
    var path := PathOf(prefix, m.key);
    [FieldSeen(path, m.key, m.value, depth)] + EventsBelow(m.value, path, depth)
  }

  ghost function EventsBelow(v: Value, path: string, depth: nat): seq<Event>
    decreases v, 2
  {
    if v.Array? then ElementEvents(Scanned(v.elements), path, depth)
    else if DetectFieldType(v).ObjectType? && !IsSpecialBsonType(v)
    then [NestedSeen(path)] + Events(v, path, depth + 1)
    else []
  }

  ghost function ElementEvents(elements: seq<Value>, path: string, depth: nat): seq<Event>
    decreases elements, 0
  {
    if elements == [] then []
    else
      var e := elements[|elements| - 1];
      ElementEvents(elements[..|elements| - 1], path, depth)
      + [ElementSeen(path, DetectFieldType(e))]
      + (if DetectFieldType(e).ObjectType? then Events(e, path + "[]", depth + 1) else [])
  }

  function Fresh(name: string, depth: nat): Accumulator {
    Accumulator(name, 0, map[], false, false, false, [], depth, {})
  }

  function GetOrCreate(m: FieldMap, path: string, name: string, depth: nat): Accumulator {
    if path in m then m[path] else Fresh(name, depth)
  }

  ghost function Note(m: FieldMap, e: Event): FieldMap {
    match e
    case FieldSeen(path, name, v, depth) =>
      var acc, t := GetOrCreate(m, path, name, depth), DetectFieldType(v);
      m[path := acc.(
        count := acc.count + 1,
        typeCounts := acc.typeCounts[t := CountOfType(acc.typeCounts, t) + 1],
        sampleValues := if |acc.sampleValues| < MAX_SAMPLE_VALUES then acc.sampleValues + [v] else acc.sampleValues,
        isObjectId := acc.isObjectId || t == ObjectIdType,
        isArray := acc.isArray || t == ArrayType)]
    case ElementSeen(path, t) =>
      if path !in m then m
      else m[path := m[path].(arrayElementTypes := m[path].arrayElementTypes + {t})]
    case NestedSeen(path) =>
      if path !in m then m else m[path := m[path].(isNestedObject := true)]
  }

  ghost function NoteAll(m: FieldMap, es: seq<Event>): FieldMap {
    if es == [] then m else Note(NoteAll(m, es[..|es| - 1]), es[|es| - 1])
  }

  lemma {:induction false} NoteAllAppend(m: FieldMap, a: seq<Event>, b: seq<Event>)
    ensures NoteAll(m, a + b) == NoteAll(NoteAll(m, a), b)
  {
    if b == [] {
      assert a + b == a;
    } else {
      assert (a + b)[..|a + b| - 1] == a + b[..|b| - 1];
      NoteAllAppend(m, a, b[..|b| - 1]);
    }
  }

  lemma {:induction false} PathsStay(m: FieldMap, es: seq<Event>)
    ensures m.Keys <= NoteAll(m, es).Keys
  {
    if es != [] {
      PathsStay(m, es[..|es| - 1]);
    }
  }

  lemma NoteOne(m: FieldMap, e: Event)
    ensures NoteAll(m, [e]) == Note(m, e)
  {
    assert [e][..0] == [];
  }

  lemma NothingNoted(m: FieldMap, prefix: string, depth: nat)
    ensures NoteAll(m, []) == m && MemberEvents([], prefix, depth) == []
  {
  }

  // ------------------------------------------------------- the scan as written

  class Analyzer {
    var fieldMap: FieldMap

    constructor ()
      ensures fieldMap == map[]
    {
      fieldMap := map[];
    }

    method AnalyzeDocument(doc: Value, prefix: string, depth: nat)
      modifies this
      ensures fieldMap == NoteAll(old(fieldMap), Events(doc, prefix, depth))
      decreases doc, 1
    {
      NothingNoted(old(fieldMap), prefix, depth);
      hide NoteAll, MemberEvents, EventsOfMember;
      if !doc.Object? {
        return;
      }
      assert doc.members[..0] == [];
      for i := 0 to |doc.members|
        invariant fieldMap == NoteAll(old(fieldMap), MemberEvents(doc.members[..i], prefix, depth))
      {
        AnalyzeMember(doc.members[i], prefix, depth);
        assert doc.members[..i + 1][..i] == doc.members[..i];
        MemberEventsStep(doc.members[..i + 1], prefix, depth);
        NoteAllAppend(old(fieldMap), MemberEvents(doc.members[..i], prefix, depth),
                      EventsOfMember(doc.members[i], prefix, depth));
      }
      assert doc.members[..|doc.members|] == doc.members;
    }

    method AnalyzeMember(m: Member, prefix: string, depth: nat)
      modifies this
      ensures fieldMap == NoteAll(old(fieldMap), EventsOfMember(m, prefix, depth))
      decreases m, 1
    {
      var path := PathOf(prefix, m.key);
      NoteField(m, path, depth);
      ghost var seen := [FieldSeen(path, m.key, m.value, depth)];
      NoteOne(old(fieldMap), seen[0]);
      AnalyzeBelow(m.value, path, depth);
      NoteAllAppend(old(fieldMap), seen, EventsBelow(m.value, path, depth));
    }

    method NoteField(m: Member, path: string, depth: nat)
      modifies this
      ensures fieldMap == Note(old(fieldMap), FieldSeen(path, m.key, m.value, depth))
    {
      var acc := GetOrCreate(fieldMap, path, m.key, depth);
      acc := acc.(count := acc.count + 1);
      var fieldType := DetectFieldType(m.value);
      acc := acc.(typeCounts := acc.typeCounts[fieldType := CountOfType(acc.typeCounts, fieldType) + 1]);
      if |acc.sampleValues| < MAX_SAMPLE_VALUES {
        acc := acc.(sampleValues := acc.sampleValues + [m.value]);
      }
      if fieldType == ObjectIdType {
        acc := acc.(isObjectId := true);
      }
      if fieldType == ArrayType {
        acc := acc.(isArray := true);
      }
      fieldMap := fieldMap[path := acc];
    }

    method AnalyzeBelow(value: Value, path: string, depth: nat)
      requires path in fieldMap
      modifies this
      ensures fieldMap == NoteAll(old(fieldMap), EventsBelow(value, path, depth))
      decreases value, 2
    {
      if value.Array? {
        AnalyzeElements(Scanned(value.elements), path, depth);
      } else if DetectFieldType(value) == ObjectType && !IsSpecialBsonType(value) {
        fieldMap := fieldMap[path := fieldMap[path].(isNestedObject := true)];
        NoteOne(old(fieldMap), NestedSeen(path));
        AnalyzeDocument(value, path, depth + 1);
        NoteAllAppend(old(fieldMap), [NestedSeen(path)], Events(value, path, depth + 1));
      }
    }

    method AnalyzeElements(elements: seq<Value>, path: string, depth: nat)
      requires path in fieldMap
      modifies this
      ensures fieldMap == NoteAll(old(fieldMap), ElementEvents(elements, path, depth))
      decreases elements, 0
    {
      for i := 0 to |elements|
        invariant fieldMap == NoteAll(old(fieldMap), ElementEvents(elements[..i], path, depth))
      {
        var element := elements[i];
        var elType := DetectFieldType(element);
        ghost var es := ElementEvents(elements[..i], path, depth);
        PathsStay(old(fieldMap), es);
        fieldMap := fieldMap[path := fieldMap[path].(arrayElementTypes := fieldMap[path].arrayElementTypes + {elType})];
        NoteOne(NoteAll(old(fieldMap), es), ElementSeen(path, elType));
        NoteAllAppend(old(fieldMap), es, [ElementSeen(path, elType)]);
        assert elements[..i + 1][..i] == elements[..i];
        if elType == ObjectType {
          AnalyzeDocument(element, path + "[]", depth + 1);
          NoteAllAppend(old(fieldMap), es + [ElementSeen(path, elType)], Events(element, path + "[]", depth + 1));
        } else {
          assert es + [ElementSeen(path, elType)] + [] == es + [ElementSeen(path, elType)];
        }
      }
      assert elements[..|elements|] == elements;
    }
  }

  ghost function EventsOfAll(documents: seq<Value>): seq<Event> {
    if documents == [] then []
    else EventsOfAll(documents[..|documents| - 1]) + Events(documents[|documents| - 1], "", 0)
  }

  /** The scan of a whole sample. */
  method AnalyzeDocuments(documents: seq<Value>) returns (fieldMap: FieldMap)
    ensures fieldMap == NoteAll(map[], EventsOfAll(documents))
    ensures forall p :: CountAt(fieldMap, p) == OccurrencesInAll(documents, p)
    ensures forall p :: p in fieldMap <==> OccurrencesInAll(documents, p) > 0
    ensures forall p :: p in fieldMap ==> TypeTotal(fieldMap[p].typeCounts) == fieldMap[p].count
    ensures forall p :: p in fieldMap ==> MarksIn(fieldMap[p]) == MarksOfAll(ValuesAt(EventsOfAll(documents), p))
  {
    var analyzer := new Analyzer();
    for i := 0 to |documents|
      invariant analyzer.fieldMap == NoteAll(map[], EventsOfAll(documents[..i]))
    {
      analyzer.AnalyzeDocument(documents[i], "", 0);
      NoteAllAppend(map[], EventsOfAll(documents[..i]), Events(documents[i], "", 0));
      assert documents[..i + 1][..i] == documents[..i];
    }
    assert documents[..|documents|] == documents;
    fieldMap := analyzer.fieldMap;
    forall p ensures CountAt(fieldMap, p) == OccurrencesInAll(documents, p)
      ensures p in fieldMap <==> OccurrencesInAll(documents, p) > 0
      ensures p in fieldMap ==> TypeTotal(fieldMap[p].typeCounts) == fieldMap[p].count
      ensures p in fieldMap ==> MarksIn(fieldMap[p]) == MarksOfAll(ValuesAt(EventsOfAll(documents), p))
    {
      StoredCountIsOccurrences(documents, p);
      MarksAreExact(documents, p);
    }
  }

  // ------------------------------------------------ plain counts to compare with

  function CountAt(m: FieldMap, p: string): nat {
    if p in m then m[p].count else 0
  }

  /** How often path `p` occurs in a document, counted directly on the document: nested
      plain objects extend the path with a dot, objects among the first 100 elements of
      an array with `[]` and a dot. */
  ghost function Occurrences(doc: Value, prefix: string, p: string): nat
    decreases doc, 1
  {
    if doc.Object? then OccurrencesInMembers(doc.members, prefix, p) else 0
  }

  ghost function OccurrencesInMembers(members: seq<Member>, prefix: string, p: string): nat
    decreases members, 0
  {
    if members == [] then 0
    else
      var path := PathOf(prefix, members[0].key);
      (if path == p then 1 else 0) + OccurrencesBelow(members[0].value, path, p)
      + OccurrencesInMembers(members[1..], prefix, p)
  }

  ghost function OccurrencesBelow(v: Value, path: string, p: string): nat
    decreases v, 2
  {
    if v.Array? then OccurrencesInElements(v.elements, 0, path, p)
    else if v.Object? && v.bsonTag == NoTag then Occurrences(v, path, p)
    else 0
  }

  ghost function OccurrencesInElements(elements: seq<Value>, i: nat, path: string, p: string): nat
    requires i <= |elements|
    decreases elements, |elements| - i
  {
    if i == |elements| || i == 100 then 0
    else
      (if DetectFieldType(elements[i]) == ObjectType then Occurrences(elements[i], path + "[]", p) else 0)
      + OccurrencesInElements(elements, i + 1, path, p)
  }

  ghost function OccurrencesInAll(documents: seq<Value>, p: string): nat {
    if documents == [] then 0
    else OccurrencesInAll(documents[..|documents| - 1], p) + Occurrences(documents[|documents| - 1], "", p)
  }

  /** How many events record a field at path `p`. */
  ghost function Seen(es: seq<Event>, p: string): nat {
    if es == [] then 0
    else Seen(es[..|es| - 1], p) + (if es[|es| - 1].FieldSeen? && es[|es| - 1].path == p then 1 else 0)
  }

  lemma {:induction false} SeenAppend(a: seq<Event>, b: seq<Event>, p: string)
    ensures Seen(a + b, p) == Seen(a, p) + Seen(b, p)
  {
    if b == [] {
      assert a + b == a;
    } else {
      assert (a + b)[..|a + b| - 1] == a + b[..|b| - 1];
      SeenAppend(a, b[..|b| - 1], p);
    }
  }

  lemma SeenOne(e: Event, p: string)
    ensures Seen([e], p) == if e.FieldSeen? && e.path == p then 1 else 0
  {
    assert [e][..0] == [];
  }

  // --------------------------------------------- the tally against the plain counts

  lemma {:induction false} OccurrencesAppend(ms: seq<Member>, m: Member, prefix: string, p: string)
    ensures OccurrencesInMembers(ms + [m], prefix, p)
         == OccurrencesInMembers(ms, prefix, p) + OccurrencesInMembers([m], prefix, p)
  {
    if ms == [] {
      assert ms + [m] == [m];
    } else {
      assert (ms + [m])[1..] == ms[1..] + [m];
      OccurrencesAppend(ms[1..], m, prefix, p);
    }
  }

  lemma {:induction false} EventsCountOccurrences(doc: Value, prefix: string, depth: nat, p: string)
    ensures Seen(Events(doc, prefix, depth), p) == Occurrences(doc, prefix, p)
    decreases doc, 1
  {
    if doc.Object? {
      MemberEventsCount(doc.members, prefix, depth, p);
    }
  }

  lemma {:induction false} MemberEventsCount(members: seq<Member>, prefix: string, depth: nat, p: string)
    ensures Seen(MemberEvents(members, prefix, depth), p) == OccurrencesInMembers(members, prefix, p)
    decreases members, 0
  {
    hide DetectFieldType, EventsOfMember, OccurrencesBelow, PathOf;
    if members == [] {
      assert Seen([], p) == 0;
    } else {
      hide *;
      var init, m := members[..|members| - 1], members[|members| - 1];
      MemberEventsCount(init, prefix, depth, p);
      OneMemberCount(m, prefix, depth, p);
      var before, own := MemberEvents(init, prefix, depth), EventsOfMember(m, prefix, depth);
      MemberEventsStep(members, prefix, depth);
      SeenAppend(before, own, p);
      assert members == init + [m];
      OccurrencesAppend(init, m, prefix, p);
    }
  }

  lemma OneMemberCount(m: Member, prefix: string, depth: nat, p: string)
    ensures Seen(EventsOfMember(m, prefix, depth), p) == OccurrencesInMembers([m], prefix, p)
    decreases m, 1
  {
    var path := PathOf(prefix, m.key);
    var first := FieldSeen(path, m.key, m.value, depth);
    assert [m][1..] == [];
    SeenOne(first, p);
    BelowCount(m.value, path, depth, p);
    SeenAppend([first], EventsBelow(m.value, path, depth), p);
  }

  lemma {:induction false} BelowCount(v: Value, path: string, depth: nat, p: string)
    ensures Seen(EventsBelow(v, path, depth), p) == OccurrencesBelow(v, path, p)
    decreases v, 2
  {
    if v.Array? {
      var n := |Scanned(v.elements)|;
      ElementEventsCount(v.elements, n, path, depth, p);
      assert v.elements[..n] == Scanned(v.elements);
    } else if v.Object? && v.bsonTag == NoTag {
      EventsCountOccurrences(v, path, depth + 1, p);
      SeenOne(NestedSeen(path), p);
      SeenAppend([NestedSeen(path)], Events(v, path, depth + 1), p);
    }
  }

  lemma {:induction false} ElementEventsCount(elements: seq<Value>, i: nat, path: string, depth: nat, p: string)
    requires i <= |elements| && i <= MAX_ARRAY_ELEMENTS
    ensures Seen(ElementEvents(elements[..i], path, depth), p) + OccurrencesInElements(elements, i, path, p)
         == OccurrencesInElements(elements, 0, path, p)
    decreases elements, i
  {
    if i > 0 {
      hide DetectFieldType, Occurrences, Events;
      var e, before := elements[i - 1], elements[..i - 1];
      ElementEventsCount(elements, i - 1, path, depth, p);
      ElementEventsStep(elements, i, path, depth);
      var isObject := DetectFieldType(e).ObjectType?;
      var seen, rest := [ElementSeen(path, DetectFieldType(e))],
          if isObject then Events(e, path + "[]", depth + 1) else [];
      var below := if isObject then Occurrences(e, path + "[]", p) else 0;
      assert OccurrencesInElements(elements, i - 1, path, p) == below + OccurrencesInElements(elements, i, path, p);
      assert Seen([], p) == 0;
      hide ElementEvents, OccurrencesInElements, Seen;
      SeenOne(seen[0], p);
      if isObject {
        EventsCountOccurrences(e, path + "[]", depth + 1, p);
      }
      SeenAppend(ElementEvents(before, path, depth), seen, p);
      SeenAppend(ElementEvents(before, path, depth) + seen, rest, p);
    }
  }

  lemma MemberEventsStep(members: seq<Member>, prefix: string, depth: nat)
    requires members != []
    ensures MemberEvents(members, prefix, depth)
         == MemberEvents(members[..|members| - 1], prefix, depth)
            + EventsOfMember(members[|members| - 1], prefix, depth)
  {
    hide EventsOfMember;
  }

  lemma ElementEventsStep(elements: seq<Value>, i: nat, path: string, depth: nat)
    requires 0 < i <= |elements|
    ensures var e := elements[i - 1];
      ElementEvents(elements[..i], path, depth)
      == ElementEvents(elements[..i - 1], path, depth) + [ElementSeen(path, DetectFieldType(e))]
         + if DetectFieldType(e).ObjectType? then Events(e, path + "[]", depth + 1) else []
  {
    hide DetectFieldType, Events;
    assert elements[..i][..i - 1] == elements[..i - 1];
  }

  lemma {:induction false} AllEventsCount(documents: seq<Value>, p: string)
    ensures Seen(EventsOfAll(documents), p) == OccurrencesInAll(documents, p)
  {
    if documents != [] {
      var init, doc := documents[..|documents| - 1], documents[|documents| - 1];
      AllEventsCount(init, p);
      EventsCountOccurrences(doc, "", 0, p);
      SeenAppend(EventsOfAll(init), Events(doc, "", 0), p);
    }
  }

  /** The values recorded at path `p`, in scan order. */
  ghost function ValuesAt(es: seq<Event>, p: string): seq<Value> {
    if es == [] then []
    else ValuesAt(es[..|es| - 1], p) + ValueOf(es[|es| - 1], p)
  }

  ghost function CountWithType(values: seq<Value>, t: FieldType): nat {
    if values == [] then 0
    else CountWithType(values[..|values| - 1], t) + (if DetectFieldType(values[|values| - 1]) == t then 1 else 0)
  }

  ghost function Pick(types: set<FieldType>): FieldType
    requires types != {}
  {
    var t :| t in types; t
  }

  ghost function TotalOver(types: set<FieldType>, c: map<FieldType, nat>): nat {
    if types == {} then 0
    else var t := Pick(types); CountOfType(c, t) + TotalOver(types - {t}, c)
  }

  /** The sum of the per-type counts. */
  ghost function TypeTotal(c: map<FieldType, nat>): nat {
    TotalOver(c.Keys, c)
  }

  lemma {:induction false} TotalWithout(types: set<FieldType>, c: map<FieldType, nat>, t: FieldType)
    requires t in types
    ensures TotalOver(types, c) == CountOfType(c, t) + TotalOver(types - {t}, c)
  {
    var u := Pick(types);
    if u != t {
      TotalWithout(types - {u}, c, t);
      TotalWithout(types - {t}, c, u);
      assert types - {u} - {t} == types - {t} - {u};
    }
  }

  lemma {:induction false} TotalUnchanged(types: set<FieldType>, c: map<FieldType, nat>, d: map<FieldType, nat>)
    requires forall t :: t in types ==> CountOfType(c, t) == CountOfType(d, t)
    ensures TotalOver(types, c) == TotalOver(types, d)
  {
    if types != {} {
      TotalUnchanged(types - {Pick(types)}, c, d);
    }
  }

  lemma TypeTotalBump(c: map<FieldType, nat>, t: FieldType)
    ensures TypeTotal(c[t := CountOfType(c, t) + 1]) == TypeTotal(c) + 1
  {
    var d := c[t := CountOfType(c, t) + 1];
    TotalWithout(d.Keys, d, t);
    TotalUnchanged(d.Keys - {t}, c, d);
    if t in c {
      TotalWithout(c.Keys, c, t);
      assert d.Keys == c.Keys;
    } else {
      assert d.Keys - {t} == c.Keys;
    }
  }

  /** What an accumulator says about the values seen at its path. */
  ghost predicate Describes(acc: Accumulator, values: seq<Value>) {
    && acc.count == |values| && TypeTotal(acc.typeCounts) == acc.count
    && (forall t :: CountOfType(acc.typeCounts, t) == CountWithType(values, t))
    && acc.sampleValues == (if |values| <= 5 then values else values[..5])
    && (acc.isArray <==> CountWithType(values, ArrayType) > 0)
    && (acc.isObjectId <==> CountWithType(values, ObjectIdType) > 0)
  }

  lemma DescribesOneMore(acc: Accumulator, acc': Accumulator, values: seq<Value>, v: Value)
    requires Describes(acc, values)
    requires var t := DetectFieldType(v);
      acc' == acc.(
        count := acc.count + 1,
        typeCounts := acc.typeCounts[t := CountOfType(acc.typeCounts, t) + 1],
        sampleValues := if |acc.sampleValues| < MAX_SAMPLE_VALUES then acc.sampleValues + [v] else acc.sampleValues,
        isObjectId := acc.isObjectId || t == ObjectIdType,
        isArray := acc.isArray || t == ArrayType)
    ensures Describes(acc', values + [v])
  {
    assert (values + [v])[..|values|] == values;
    TypeTotalBump(acc.typeCounts, DetectFieldType(v));
  }

  ghost predicate DescribesAt(m: FieldMap, p: string, values: seq<Value>) {
    (p in m <==> values != []) && (p in m ==> Describes(m[p], values))
  }

  ghost function ValueOf(e: Event, p: string): seq<Value> {
    if e.FieldSeen? && e.path == p then [e.value] else []
  }

  lemma NoteDescribes(m: FieldMap, p: string, values: seq<Value>, e: Event)
    requires DescribesAt(m, p, values)
    ensures DescribesAt(Note(m, e), p, values + ValueOf(e, p))
  {
    assert TypeTotal(map[]) == 0;
    hide TypeTotal;
    assert values + [] == values;
    if e.path == p && e.FieldSeen? {
      var acc := GetOrCreate(m, p, e.name, e.depth);
      assert Describes(acc, values);
      DescribesOneMore(acc, Note(m, e)[p], values, e.value);
    } else if e.path == p && p in m {
      var acc := Note(m, e)[p];
      assert acc.count == m[p].count && acc.typeCounts == m[p].typeCounts && acc.sampleValues == m[p].sampleValues;
    }
  }

  /** After any list of events, exactly the paths that were seen have an accumulator, and
      it describes the values seen there. */
  lemma {:induction false} TallyDescribes(es: seq<Event>, p: string)
    ensures DescribesAt(NoteAll(map[], es), p, ValuesAt(es, p))
    ensures Seen(es, p) == |ValuesAt(es, p)|
  {
    if es != [] {
      var init, e := es[..|es| - 1], es[|es| - 1];
      TallyDescribes(init, p);
      NoteDescribes(NoteAll(map[], init), p, ValuesAt(init, p), e);
    }
  }

  /** The first field that the scan sees at a path, by its name and depth. */
  ghost function FirstSeen(es: seq<Event>, p: string): seq<(string, nat)> {
    if es == [] then []
    else
      var first, last := FirstSeen(es[..|es| - 1], p), es[|es| - 1];
      if first == [] && last.FieldSeen? && last.path == p then [(last.name, last.depth)] else first
  }

  /** An accumulator keeps the name and the depth that its path was first seen with. */
  lemma {:induction false} NameAndDepthAreFirst(es: seq<Event>, p: string)
    ensures p in NoteAll(map[], es) <==> FirstSeen(es, p) != []
    ensures var m := NoteAll(map[], es); p in m ==> FirstSeen(es, p) == [(m[p].name, m[p].depth)]
  {
    hide DetectFieldType;
    if es != [] {
      NameAndDepthAreFirst(es[..|es| - 1], p);
    }
  }

  lemma StoredCountIsOccurrences(documents: seq<Value>, p: string)
    ensures var m := NoteAll(map[], EventsOfAll(documents));
      && CountAt(m, p) == OccurrencesInAll(documents, p)
      && (p in m <==> OccurrencesInAll(documents, p) > 0)
      && (p in m ==> Describes(m[p], ValuesAt(EventsOfAll(documents), p)))
  {
    AllEventsCount(documents, p);
    TallyDescribes(EventsOfAll(documents), p);
  }

  // ---------------------------------------- what lies below a path: the other two fields

  // What the values at a path give rise to besides the counts.
  datatype Mark = ElementOf(t: FieldType) | Nested

  /** The types among the first hundred elements of an array; that a value is a plain
      object. */
  ghost function MarksOf(v: Value): set<Mark> {
    if v.Array? then ElementMarks(Scanned(v.elements))
    else if v.Object? && v.bsonTag == NoTag then {Nested}
    else {}
  }

  ghost function ElementMarks(elements: seq<Value>): set<Mark> {
    set i | 0 <= i < |elements| :: ElementOf(DetectFieldType(elements[i]))
  }

  ghost function MarksOfAll(values: seq<Value>): set<Mark> {
    if values == [] then {} else MarksOfAll(values[..|values| - 1]) + MarksOf(values[|values| - 1])
  }

  ghost function MarksIn(acc: Accumulator): set<Mark> {
    (set t | t in acc.arrayElementTypes :: ElementOf(t)) + if acc.isNestedObject then {Nested} else {}
  }

  ghost function MarksAt(m: FieldMap, p: string): set<Mark> {
    if p in m then MarksIn(m[p]) else {}
  }

  /** Noted into any map that has the paths in `known`, the events add at a path the marks of
      the values seen there, and those in `own`. */
  ghost predicate MarksFollow(es: seq<Event>, p: string, known: set<string>, own: set<Mark>) {
    forall m: FieldMap :: known <= m.Keys ==>
      MarksAt(NoteAll(m, es), p) == MarksAt(m, p) + MarksOfAll(ValuesAt(es, p)) + own
  }

  lemma {:induction false} ValuesAppend(a: seq<Event>, b: seq<Event>, p: string)
    ensures ValuesAt(a + b, p) == ValuesAt(a, p) + ValuesAt(b, p)
  {
    hide ValueOf;
    if b == [] {
      assert a + b == a;
    } else {
      assert (a + b)[..|a + b| - 1] == a + b[..|b| - 1];
      ValuesAppend(a, b[..|b| - 1], p);
    }
  }

  lemma {:induction false} MarksAppend(a: seq<Value>, b: seq<Value>)
    ensures MarksOfAll(a + b) == MarksOfAll(a) + MarksOfAll(b)
  {
    hide MarksOf;
    if b == [] {
      assert a + b == a;
    } else {
      assert (a + b)[..|a + b| - 1] == a + b[..|b| - 1];
      MarksAppend(a, b[..|b| - 1]);
    }
  }

  lemma NoMarks(p: string, known: set<string>)
    ensures MarksFollow([], p, known, {})
  {
    assert MarksOfAll(ValuesAt([], p)) == {};
  }

  lemma MarksCompose(a: seq<Event>, b: seq<Event>, p: string, known: set<string>, own: set<Mark>, own': set<Mark>)
    requires MarksFollow(a, p, known, own) && MarksFollow(b, p, known, own')
    ensures MarksFollow(a + b, p, known, own + own')
  {
    hide NoteAll, MarksAt, ValuesAt, MarksOfAll;
    forall m: FieldMap | known <= m.Keys
      ensures MarksAt(NoteAll(m, a + b), p) == MarksAt(m, p) + MarksOfAll(ValuesAt(a + b, p)) + (own + own')
    {
      NoteAllAppend(m, a, b);
      PathsStay(m, a);
      ValuesAppend(a, b, p);
      MarksAppend(ValuesAt(a, p), ValuesAt(b, p));
    }
  }

  lemma KnowingMore(es: seq<Event>, p: string, path: string)
    requires MarksFollow(es, p, {}, {})
    ensures MarksFollow(es, p, {path}, {})
  {
    hide NoteAll, MarksAt, ValuesAt, MarksOfAll;
  }

  ghost function Own(here: bool, marks: set<Mark>): set<Mark> {
    if here then marks else {}
  }

  lemma MarkNoted(e: Event, p: string)
    requires !e.FieldSeen?
    ensures MarksFollow([e], p, {e.path},
                        Own(e.path == p, {if e.NestedSeen? then Nested else ElementOf(e.elementType)}))
  {
    forall m: FieldMap | {e.path} <= m.Keys
      ensures MarksAt(NoteAll(m, [e]), p)
           == MarksAt(m, p) + MarksOfAll(ValuesAt([e], p))
              + Own(e.path == p, {if e.NestedSeen? then Nested else ElementOf(e.elementType)})
    {
      NoteOne(m, e);
      assert ValuesAt([e], p) == [] by {
        assert [e][..0] == [];
      }
      assert MarksOfAll([]) == {};
    }
  }

  lemma FieldNoted(m: FieldMap, e: Event, p: string)
    requires e.FieldSeen?
    ensures MarksAt(NoteAll(m, [e]), p) == MarksAt(m, p) && e.path in NoteAll(m, [e])
    ensures MarksOfAll(ValuesAt([e], p)) == Own(e.path == p, MarksOf(e.value))
  {
    hide DetectFieldType, MarksOf;
    NoteOne(m, e);
    assert [e][..0] == [] && [e.value][..0] == [];
    assert ValuesAt([e], p) == ValueOf(e, p);
    assert MarksOfAll([e.value]) == MarksOf(e.value);
  }

  lemma {:induction false} DocumentMarks(doc: Value, prefix: string, depth: nat, p: string)
    ensures MarksFollow(Events(doc, prefix, depth), p, {}, {})
    decreases doc, 1
  {
    hide MarksFollow;
    if doc.Object? {
      MembersMarks(doc.members, prefix, depth, p);
    } else {
      NoMarks(p, {});
    }
  }

  lemma {:induction false} MembersMarks(members: seq<Member>, prefix: string, depth: nat, p: string)
    ensures MarksFollow(MemberEvents(members, prefix, depth), p, {}, {})
    decreases members, 0
  {
    hide MarksFollow, EventsOfMember;
    if members == [] {
      NoMarks(p, {});
    } else {
      var init, m := members[..|members| - 1], members[|members| - 1];
      MembersMarks(init, prefix, depth, p);
      MemberMarks(m, prefix, depth, p);
      MarksCompose(MemberEvents(init, prefix, depth), EventsOfMember(m, prefix, depth), p, {}, {}, {});
      var none: set<Mark> := {};
      assert none + none == none;
    }
  }

  lemma MemberMarks(m: Member, prefix: string, depth: nat, p: string)
    ensures MarksFollow(EventsOfMember(m, prefix, depth), p, {}, {})
    decreases m, 1
  {
    hide NoteAll, MarksAt, ValuesAt, MarksOfAll, MarksOf, EventsBelow;
    var path := PathOf(prefix, m.key);
    var first, below := FieldSeen(path, m.key, m.value, depth), EventsBelow(m.value, path, depth);
    BelowMarks(m.value, path, depth, p);
    forall before: FieldMap
      ensures MarksAt(NoteAll(before, [first] + below), p)
           == MarksAt(before, p) + MarksOfAll(ValuesAt([first] + below, p)) + {}
    {
      FieldNoted(before, first, p);
      NoteAllAppend(before, [first], below);
      ValuesAppend([first], below, p);
      MarksAppend(ValuesAt([first], p), ValuesAt(below, p));
    }
  }

  lemma {:induction false} BelowMarks(v: Value, path: string, depth: nat, p: string)
    ensures MarksFollow(EventsBelow(v, path, depth), p, {path}, Own(path == p, MarksOf(v)))
    decreases v, 2
  {
    hide MarksFollow, Events, ElementEvents, ElementMarks;
    if v.Array? {
      ElementsMarks(Scanned(v.elements), path, depth, p);
    } else if v.Object? && v.bsonTag == NoTag {
      DocumentMarks(v, path, depth + 1, p);
      KnowingMore(Events(v, path, depth + 1), p, path);
      MarkNoted(NestedSeen(path), p);
      MarksCompose([NestedSeen(path)], Events(v, path, depth + 1), p, {path}, Own(path == p, {Nested}), {});
      assert Own(path == p, {Nested}) + {} == Own(path == p, {Nested});
    } else {
      NoMarks(p, {path});
      assert Own(path == p, {}) == {};
    }
  }

  lemma {:induction false} ElementsMarks(elements: seq<Value>, path: string, depth: nat, p: string)
    ensures MarksFollow(ElementEvents(elements, path, depth), p, {path}, Own(path == p, ElementMarks(elements)))
    decreases elements, 0
  {
    hide MarksFollow, Events, DetectFieldType;
    var here := path == p;
    if elements == [] {
      NoMarks(p, {path});
      assert Own(here, ElementMarks(elements)) == {};
    } else {
      var init, e := elements[..|elements| - 1], elements[|elements| - 1];
      var before, seen := ElementEvents(init, path, depth), [ElementSeen(path, DetectFieldType(e))];
      var below := if DetectFieldType(e).ObjectType? then Events(e, path + "[]", depth + 1) else [];
      ElementsMarks(init, path, depth, p);
      MarkNoted(seen[0], p);
      MarksCompose(before, seen, p, {path}, Own(here, ElementMarks(init)), Own(here, {ElementOf(DetectFieldType(e))}));
      if DetectFieldType(e).ObjectType? {
        DocumentMarks(e, path + "[]", depth + 1, p);
        KnowingMore(below, p, path);
      } else {
        NoMarks(p, {path});
      }
      OneElementMore(elements, here);
      MarksCompose(before + seen, below, p, {path}, Own(here, ElementMarks(elements)), {});
      assert Own(here, ElementMarks(elements)) + {} == Own(here, ElementMarks(elements));
      assert ElementEvents(elements, path, depth) == before + seen + below;
    }
  }

  lemma OneElementMore(elements: seq<Value>, here: bool)
    requires elements != []
    ensures var n := |elements| - 1;
      Own(here, ElementMarks(elements[..n])) + Own(here, {ElementOf(DetectFieldType(elements[n]))})
      == Own(here, ElementMarks(elements))
  {
    hide DetectFieldType;
  }

  /** After a scan the remaining two fields of an accumulator are exact too: they say whether
      some value at the path is a plain object, and which types occur among the first hundred
      elements of the arrays there. */
  lemma {:induction false} MarksAreExact(documents: seq<Value>, p: string)
    ensures MarksFollow(EventsOfAll(documents), p, {}, {})
    ensures MarksAt(NoteAll(map[], EventsOfAll(documents)), p) == MarksOfAll(ValuesAt(EventsOfAll(documents), p))
  {
    hide Events, NoteAll, ValuesAt, MarksOfAll;
    if documents == [] {
      NoMarks(p, {});
    } else {
      var init, doc := documents[..|documents| - 1], documents[|documents| - 1];
      MarksAreExact(init, p);
      DocumentMarks(doc, "", 0, p);
      MarksCompose(EventsOfAll(init), Events(doc, "", 0), p, {}, {}, {});
      var none: set<Mark> := {};
      assert none + none == none;
    }
    assert MarksAt(map[], p) == {};
  }
}
