/** Canonical JSON: object keys sorted, `undefined` read as `null`, then serialised. Two
    values hash alike only if this text is the same, so it has to identify a value up to
    the order of its keys. */
module CanonicalJson {
  import opened Wrappers
  import opened CodeUnits

  // A number is the text JavaScript prints for it; JSON has only finite numbers.
  datatype Json =
    | Null | Undefined | Bool(b: bool) | Number(digits: Text) | String(s: Text)
    | Array(items: seq<Json>)
    | Object(members: seq<Member>)

  datatype Member = Member(key: Text, value: Json)

  predicate IsNumberUnit(u: Unit) {
    48 <= u <= 57 || u == 43 || u == 45 || u == 46 || u == 101
  }

  lemma NumberUnits(u: Unit)
    ensures IsNumberUnit(u) <==> u in Ascii("0123456789+-.e")
  {
    var units := Ascii("0123456789+-.e");
    assert units == [48, 49, 50, 51, 52, 53, 54, 55, 56, 57, 43, 45, 46, 101];
  }

  predicate IsNumberText(t: Text) {
    t != [] && forall i :: 0 <= i < |t| ==> IsNumberUnit(t[i])
  }

  predicate UniqueKeys(ms: seq<Member>) {
    forall i, j :: 0 <= i < j < |ms| ==> ms[i].key != ms[j].key
  }

  /** What JavaScript guarantees of any value: printed numbers are number texts, and an
      object has each key once. */
  predicate WellFormed(v: Json) {
    match v
    case Number(digits) => IsNumberText(digits)
    case Array(items) => forall i :: 0 <= i < |items| ==> WellFormed(items[i])
    case Object(ms) => UniqueKeys(ms) && forall i :: 0 <= i < |ms| ==> WellFormed(ms[i].value)
    case _ => true
  }

  /** Equality up to the order of object keys, reading `undefined` as `null`. */
  ghost predicate Equivalent(a: Json, b: Json) {
    match a
    case Null => b.Null? || b.Undefined?
    case Undefined => b.Null? || b.Undefined?
    case Array(xs) => b.Array? && |xs| == |b.items| && forall i :: 0 <= i < |xs| ==> Equivalent(xs[i], b.items[i])
    case Object(xs) =>
      && b.Object? && SameKeys(xs, b.members)
      && forall i, j :: 0 <= i < |xs| && 0 <= j < |b.members| && xs[i].key == b.members[j].key
           ==> Equivalent(xs[i].value, b.members[j].value)
    case _ => a == b
  }

  ghost predicate SameKeys(xs: seq<Member>, ys: seq<Member>) {
    && (forall i :: 0 <= i < |xs| ==> HasKey(ys, xs[i].key))
    && (forall j :: 0 <= j < |ys| ==> HasKey(xs, ys[j].key))
  }

  ghost predicate HasKey(ms: seq<Member>, k: Text) {
    exists i :: 0 <= i < |ms| && ms[i].key == k
  }

  // ------------------------------------------------------------------ sorting

  function Insert(m: Member, ms: seq<Member>): seq<Member> {
    if ms == [] || Less(m.key, ms[0].key) then [m] + ms else [ms[0]] + Insert(m, ms[1..])
  }

  function Sorted(v: Json): Json {
    match v
    case Undefined => Null
    case Array(items) => Array(SortedItems(items))
    case Object(ms) => Object(SortedMembers(ms))
    case _ => v
  }

  function SortedItems(items: seq<Json>): (r: seq<Json>)
    ensures |r| == |items| && forall i :: 0 <= i < |items| ==> r[i] == Sorted(items[i])
  {
    if items == [] then [] else [Sorted(items[0])] + SortedItems(items[1..])
  }

  function SortedMembers(ms: seq<Member>): seq<Member> {
    if ms == [] then [] else Insert(Member(ms[0].key, Sorted(ms[0].value)), SortedMembers(ms[1..]))
  }

  ghost predicate StrictlyOrdered(ms: seq<Member>) {
    forall i, j :: 0 <= i < j < |ms| ==> Less(ms[i].key, ms[j].key)
  }

  lemma {:induction false} InsertOrdered(m: Member, ms: seq<Member>)
    requires StrictlyOrdered(ms) && !HasKey(ms, m.key)
    ensures StrictlyOrdered(Insert(m, ms))
    ensures forall x :: x in Insert(m, ms) <==> x == m || x in ms
  {
    if ms == [] {
    } else if Less(m.key, ms[0].key) {
      forall j | 0 <= j < |ms| ensures Less(m.key, ms[j].key) {
        if j > 0 {
          LessTransitive(m.key, ms[0].key, ms[j].key);
        }
      }
    } else {
      LessTotal(m.key, ms[0].key);
      var rest := Insert(m, ms[1..]);
      InsertOrdered(m, ms[1..]);
      forall j | 0 <= j < |rest| ensures Less(ms[0].key, rest[j].key) {
        assert rest[j] in rest;
      }
    }
  }

  ghost predicate IsSortedImage(x: Member, ms: seq<Member>) {
    exists i :: 0 <= i < |ms| && x == Member(ms[i].key, Sorted(ms[i].value))
  }

  /** Keys ascend by code units: of two neighbours the first is a prefix of the second or has
      the smaller unit where they first differ. */
  ghost predicate Ascending(ms: seq<Member>) {
    forall i, j :: 0 <= i < j < |ms| ==> ComesBefore(ms[i].key, ms[j].key)
  }

  lemma OrderedAscends(ms: seq<Member>)
    ensures StrictlyOrdered(ms) <==> Ascending(ms)
  {
    forall i, j | 0 <= i < j < |ms| ensures Less(ms[i].key, ms[j].key) <==> ComesBefore(ms[i].key, ms[j].key) {
      LessIff(ms[i].key, ms[j].key);
    }
  }

  /** The sorted members are those given, with sorted values, and their keys ascend. */
  lemma SortedMembersShape(ms: seq<Member>)
    requires UniqueKeys(ms)
    ensures Ascending(SortedMembers(ms)) && StrictlyOrdered(SortedMembers(ms))
    ensures forall x :: x in SortedMembers(ms) <==> IsSortedImage(x, ms)
  {
    SortedMembersOrdered(ms);
    OrderedAscends(SortedMembers(ms));
  }

  lemma {:induction false} SortedMembersOrdered(ms: seq<Member>)
    requires UniqueKeys(ms)
    ensures StrictlyOrdered(SortedMembers(ms))
    ensures forall x :: x in SortedMembers(ms) <==> IsSortedImage(x, ms)
  {
    if ms != [] {
      var first, rest := Member(ms[0].key, Sorted(ms[0].value)), SortedMembers(ms[1..]);
      SortedMembersOrdered(ms[1..]);
      forall j | 0 <= j < |rest| ensures rest[j].key != first.key {
        assert rest[j] in rest;
        var i :| 0 <= i < |ms[1..]| && rest[j] == Member(ms[1..][i].key, Sorted(ms[1..][i].value));
        assert rest[j].key == ms[i + 1].key;
      }
      InsertOrdered(first, rest);
      forall x ensures x in SortedMembers(ms) <==> IsSortedImage(x, ms) {
        if IsSortedImage(x, ms[1..]) {
          var i :| 0 <= i < |ms[1..]| && x == Member(ms[1..][i].key, Sorted(ms[1..][i].value));
          assert x == Member(ms[i + 1].key, Sorted(ms[i + 1].value));
        }
        if IsSortedImage(x, ms) {
          var i :| 0 <= i < |ms| && x == Member(ms[i].key, Sorted(ms[i].value));
          if i > 0 {
            assert x == Member(ms[1..][i - 1].key, Sorted(ms[1..][i - 1].value));
          }
        }
      }
    }
  }

  /** Strictly ordered members are determined by which members there are. */
  lemma {:induction false} OrderedMembersUnique(xs: seq<Member>, ys: seq<Member>)
    requires StrictlyOrdered(xs) && StrictlyOrdered(ys)
    requires forall m :: m in xs <==> m in ys
    ensures xs == ys
  {
    assert ys == [] || ys[0] in ys;
    if xs != [] {
      assert xs[0] in xs && xs[0] in ys;
      assert ys[0] in ys && ys[0] in xs;
      SameHead(xs, ys);
      assert xs == [xs[0]] + xs[1..] && ys == [ys[0]] + ys[1..];
      forall m ensures m in xs[1..] <==> m in ys[1..] {
        LessIrreflexive(xs[0].key);
        if m in xs[1..] {
          assert m in ys && m != ys[0];
        }
        if m in ys[1..] {
          assert m in xs && m != xs[0];
        }
      }
      OrderedMembersUnique(xs[1..], ys[1..]);
    }
  }

  lemma SameHead(xs: seq<Member>, ys: seq<Member>)
    requires StrictlyOrdered(xs) && StrictlyOrdered(ys) && xs != [] && ys != []
    requires xs[0] in ys && ys[0] in xs
    ensures xs[0] == ys[0]
  {
    var i :| 0 <= i < |ys| && ys[i] == xs[0];
    var j :| 0 <= j < |xs| && xs[j] == ys[0];
    if i > 0 && j > 0 {
      LessTransitive(xs[0].key, ys[0].key, xs[0].key);
      LessIrreflexive(xs[0].key);
    }
  }

  lemma ImagesCarryOver(xs: seq<Member>, ys: seq<Member>)
    requires SameKeys(xs, ys)
    requires forall i, j :: 0 <= i < |xs| && 0 <= j < |ys| && xs[i].key == ys[j].key
               ==> Sorted(xs[i].value) == Sorted(ys[j].value)
    ensures forall m :: IsSortedImage(m, xs) ==> IsSortedImage(m, ys)
  {
    hide Sorted;
    forall m | IsSortedImage(m, xs) ensures IsSortedImage(m, ys) {
      var i :| 0 <= i < |xs| && m == Member(xs[i].key, Sorted(xs[i].value));
      var j :| 0 <= j < |ys| && ys[j].key == xs[i].key;
      assert m == Member(ys[j].key, Sorted(ys[j].value));
    }
  }

  /** Sorting forgets exactly the key order and the difference between null and undefined. */
  lemma {:induction false} EquivalentSortAlike(a: Json, b: Json)
    requires WellFormed(a) && WellFormed(b) && Equivalent(a, b)
    ensures Sorted(a) == Sorted(b)
  {
    hide SortedItems, SortedMembers, StrictlyOrdered;
    match a
    case Array(xs) =>
      forall i | 0 <= i < |xs| ensures Sorted(xs[i]) == Sorted(b.items[i]) {
        EquivalentSortAlike(xs[i], b.items[i]);
      }
      assert SortedItems(xs) == SortedItems(b.items);
    case Object(xs) =>
      var ys := b.members;
      SortedMembersShape(xs);
      SortedMembersShape(ys);
      forall i, j | 0 <= i < |xs| && 0 <= j < |ys| && xs[i].key == ys[j].key
        ensures Sorted(xs[i].value) == Sorted(ys[j].value)
      {
        EquivalentSortAlike(xs[i].value, ys[j].value);
      }
      ImagesCarryOver(xs, ys);
      ImagesCarryOver(ys, xs);
      OrderedMembersUnique(SortedMembers(xs), SortedMembers(ys));
    case _ =>
  }

  lemma {:induction false} SortAlikeEquivalent(a: Json, b: Json)
    requires WellFormed(a) && WellFormed(b) && Sorted(a) == Sorted(b)
    ensures Equivalent(a, b)
  {
    match a
    case Array(xs) =>
      forall i | 0 <= i < |xs| ensures Equivalent(xs[i], b.items[i]) {
        assert SortedItems(xs)[i] == SortedItems(b.items)[i];
        SortAlikeEquivalent(xs[i], b.items[i]);
      }
    case Object(xs) =>
      var ys, s := b.members, SortedMembers(xs);
      SortedMembersShape(xs);
      SortedMembersShape(ys);
      assert SameKeys(xs, ys) by {
        forall i | 0 <= i < |xs| ensures HasKey(ys, xs[i].key) {
          assert IsSortedImage(Member(xs[i].key, Sorted(xs[i].value)), xs);
          assert IsSortedImage(Member(xs[i].key, Sorted(xs[i].value)), ys);
        }
        forall j | 0 <= j < |ys| ensures HasKey(xs, ys[j].key) {
          assert IsSortedImage(Member(ys[j].key, Sorted(ys[j].value)), ys);
          assert IsSortedImage(Member(ys[j].key, Sorted(ys[j].value)), xs);
        }
      }
      forall i, j | 0 <= i < |xs| && 0 <= j < |ys| && xs[i].key == ys[j].key
        ensures Equivalent(xs[i].value, ys[j].value)
      {
        var k := xs[i].key;
        var x, y := Member(k, Sorted(xs[i].value)), Member(k, Sorted(ys[j].value));
        assert IsSortedImage(x, xs) && IsSortedImage(y, ys);
        SameKeySameMember(s, x, y);
        SortAlikeEquivalent(xs[i].value, ys[j].value);
      }
    case _ =>
  }

  lemma SameKeySameMember(ms: seq<Member>, x: Member, y: Member)
    requires StrictlyOrdered(ms) && x in ms && y in ms && x.key == y.key
    ensures x == y
  {
    LessIrreflexive(x.key);
  }

  /** Sorting keeps a value well-formed, equivalent to what it was, and sorting again
      changes nothing. */
  lemma {:induction false} SortedIsNormalForm(v: Json)
    requires WellFormed(v)
    ensures WellFormed(Sorted(v)) && Sorted(Sorted(v)) == Sorted(v) && Defined(Sorted(v))
  {
    hide SortedItems, SortedMembers;
    match v
    case Array(items) =>
      forall i | 0 <= i < |items| ensures WellFormed(Sorted(items[i])) && Defined(Sorted(items[i]))
        ensures Sorted(Sorted(items[i])) == Sorted(items[i])
      {
        SortedIsNormalForm(items[i]);
      }
      assert SortedItems(SortedItems(items)) == SortedItems(items);
    case Object(ms) =>
      var s := SortedMembers(ms);
      SortedMembersShape(ms);
      forall x | x in s ensures WellFormed(x.value) && Defined(x.value) && Sorted(x.value) == x.value {
        var i :| 0 <= i < |ms| && x == Member(ms[i].key, Sorted(ms[i].value));
        SortedIsNormalForm(ms[i].value);
      }
      forall i, j | 0 <= i < j < |s| ensures s[i].key != s[j].key {
        LessIrreflexive(s[i].key);
      }
      SortedMembersShape(s);
      forall m ensures m in SortedMembers(s) <==> m in s {
        if m in s {
          var i :| 0 <= i < |s| && s[i] == m;
          assert m == Member(s[i].key, Sorted(s[i].value));
        }
      }
      OrderedMembersUnique(SortedMembers(s), s);
    case _ =>
  }

  // ---------------------------------------------------- sorting as written

  function InsertKey(k: Text, ks: seq<Text>): seq<Text> {
    if ks == [] || Less(k, ks[0]) then [k] + ks else [ks[0]] + InsertKey(k, ks[1..])
  }

  /** Object.keys(record).sort() */
  function SortedKeys(ms: seq<Member>): seq<Text> {
    if ms == [] then [] else InsertKey(ms[0].key, SortedKeys(ms[1..]))
  }

  /** Sorting the keys gives the keys of the sorted members. */
  lemma {:induction false} SortedKeysAreKeys(ms: seq<Member>)
    ensures |SortedKeys(ms)| == |SortedMembers(ms)|
    ensures forall i :: 0 <= i < |SortedKeys(ms)| ==> SortedKeys(ms)[i] == SortedMembers(ms)[i].key
  {
    if ms != [] {
      SortedKeysAreKeys(ms[1..]);
      InsertAlike(Member(ms[0].key, Sorted(ms[0].value)), SortedMembers(ms[1..]), SortedKeys(ms[1..]));
    }
  }

  lemma {:induction false} InsertAlike(m: Member, ms: seq<Member>, ks: seq<Text>)
    requires |ks| == |ms| && forall i :: 0 <= i < |ks| ==> ks[i] == ms[i].key
    ensures |InsertKey(m.key, ks)| == |Insert(m, ms)|
    ensures forall i :: 0 <= i < |InsertKey(m.key, ks)| ==> InsertKey(m.key, ks)[i] == Insert(m, ms)[i].key
  {
    if ms != [] && !Less(m.key, ms[0].key) {
      InsertAlike(m, ms[1..], ks[1..]);
    }
  }

  method Lookup(ms: seq<Member>, k: Text) returns (v: Json)
    requires HasKey(ms, k)
    ensures exists i :: 0 <= i < |ms| && ms[i] == Member(k, v)
  {
    var i := 0;
    while ms[i].key != k
      invariant 0 <= i < |ms| && forall j :: 0 <= j < i ==> ms[j].key != k
      decreases |ms| - i
    {
      i := i + 1;
    }
    v := ms[i].value;
    assert ms[i] == Member(k, v);
  }

  method SortValue(v: Json) returns (r: Json)
    requires WellFormed(v)
    ensures r == Sorted(v)
    decreases v
  {
    hide SortedItems, SortedMembers;
    match v
    case Undefined => r := Null;
    case Array(items) =>
      var sorted: seq<Json> := [];
      for i := 0 to |items|
        invariant sorted == SortedItems(items)[..i]
      {
        var item := SortValue(items[i]);
        sorted := sorted + [item];
      }
      r := Array(sorted);
    case Object(ms) =>
      var sorted := SortObject(ms);
      r := Object(sorted);
    case _ => r := v;
  }

  method SortObject(ms: seq<Member>) returns (sorted: seq<Member>)
    requires UniqueKeys(ms) && forall i :: 0 <= i < |ms| ==> WellFormed(ms[i].value)
    ensures sorted == SortedMembers(ms)
    decreases ms
  {
    hide WellFormed;
    var keys := SortedKeys(ms);
    ghost var expected := SortedMembers(ms);
    SortedKeysAreKeys(ms);
    SortedMembersShape(ms);
    sorted := [];
    for i := 0 to |keys|
      invariant sorted == expected[..i]
    {
      assert IsSortedImage(expected[i], ms);
      var value := Lookup(ms, keys[i]);
      ghost var j :| 0 <= j < |ms| && ms[j] == Member(keys[i], value);
      assert ms[j].value == value;
      var item := SortValue(value);
      assert IsSortedImage(Member(keys[i], item), ms);
      SameKeySameMember(expected, expected[i], Member(keys[i], item));
      sorted := sorted + [Member(keys[i], item)];
    }
  }

  /** No `undefined` anywhere. */
  ghost predicate Defined(v: Json) {
    match v
    case Undefined => false
    case Array(items) => forall i :: 0 <= i < |items| ==> Defined(items[i])
    case Object(ms) => forall i :: 0 <= i < |ms| ==> Defined(ms[i].value)
    case _ => true
  }

  // -------------------------------------------------------------- serialising

  const QUOTE: Unit := 34
  const COMMA: Unit := 44
  const OPEN_LIST: Unit := 91
  const BACKSLASH: Unit := 92
  const CLOSE_LIST: Unit := 93
  const OPEN_OBJECT: Unit := 123
  const CLOSE_OBJECT: Unit := 125
  const NULL_TEXT: Text := [110, 117, 108, 108]
  const TRUE_TEXT: Text := [116, 114, 117, 101]
  const FALSE_TEXT: Text := [102, 97, 108, 115, 101]

  function HexDigit(d: nat): Unit
    requires d < 16
  {
    if d < 10 then 48 + d else 87 + d
  }

  function HexEscape(u: Unit): Text {
    [BACKSLASH, 117, HexDigit(u / 4096), HexDigit(u / 256 % 16), HexDigit(u / 16 % 16), HexDigit(u % 16)]
  }

  /** The letter of a two-character escape. */
  function EscapeLetter(u: Unit): Option<Unit> {
    if u == 8 then Some(98) else if u == 9 then Some(116) else if u == 10 then Some(110)
    else if u == 12 then Some(102) else if u == 13 then Some(114)
    else if u == QUOTE || u == BACKSLASH then Some(u) else None
  }

  /** One unit on its own: control units and lone surrogates in hexadecimal. */
  function EscapeUnit(u: Unit): Text {
    if EscapeLetter(u).Some? then [BACKSLASH, EscapeLetter(u).value]
    else if u < 32 || IsLead(u) || IsTrail(u) then HexEscape(u)
    else [u]
  }

  /** The inside of a string literal; surrogate pairs stay as they are. */
  function Escape(s: Text): Text {
    if s == [] then []
    else if |s| >= 2 && IsLead(s[0]) && IsTrail(s[1]) then [s[0], s[1]] + Escape(s[2..])
    else EscapeUnit(s[0]) + Escape(s[1..])
  }

  function Quote(s: Text): Text {
    [QUOTE] + Escape(s) + [QUOTE]
  }

  /** JSON.stringify of a sorted value. */
  function Stringify(v: Json): Text {
    match v
    case Null => NULL_TEXT
    case Undefined => NULL_TEXT
    case Bool(b) => if b then TRUE_TEXT else FALSE_TEXT
    case Number(digits) => digits
    case String(s) => Quote(s)
    case Array(items) => [OPEN_LIST] + ItemsText(items) + [CLOSE_LIST]
    case Object(ms) => [OPEN_OBJECT] + MembersText(ms) + [CLOSE_OBJECT]
  }

  function ItemsText(items: seq<Json>): Text {
    if items == [] then []
    else if |items| == 1 then Stringify(items[0])
    else Stringify(items[0]) + [COMMA] + ItemsText(items[1..])
  }

  function MemberText(m: Member): Text {
    Quote(m.key) + [COLON] + Stringify(m.value)
  }

  function MembersText(ms: seq<Member>): Text {
    if ms == [] then []
    else if |ms| == 1 then MemberText(ms[0])
    else MemberText(ms[0]) + [COMMA] + MembersText(ms[1..])
  }

  function CanonicalStringify(v: Json): Text {
    Stringify(Sorted(v))
  }

  // The text in terms of the characters that RFC 8259 names.

  lemma Keywords()
    ensures Stringify(Null) == Stringify(Undefined) == Ascii("null")
    ensures Stringify(Bool(true)) == Ascii("true") && Stringify(Bool(false)) == Ascii("false")
  {
  }

  lemma Marks()
    ensures [OPEN_LIST] == Ascii("[") && [CLOSE_LIST] == Ascii("]")
    ensures [OPEN_OBJECT] == Ascii("{") && [CLOSE_OBJECT] == Ascii("}")
    ensures [COMMA] == Ascii(",") && [COLON] == Ascii(":") && [QUOTE] == Ascii("\"")
  {
  }

  /** A list or an object with two entries, from which those with more differ only in length. */
  lemma ListText(v: Json, w: Json)
    ensures Stringify(Array([v, w])) == Ascii("[") + Stringify(v) + Ascii(",") + Stringify(w) + Ascii("]")
    ensures Stringify(Array([])) == Ascii("[") + Ascii("]")
  {
    Marks();
    assert [v, w][1..] == [w];
    assert ItemsText([v, w]) == Stringify(v) + [COMMA] + Stringify(w);
    hide Ascii;
    assert Stringify(Array([v, w])) == [OPEN_LIST] + (Stringify(v) + [COMMA] + Stringify(w)) + [CLOSE_LIST];
  }

  lemma ObjectText(m: Member, n: Member)
    ensures Stringify(Object([m, n])) == Ascii("{") + MemberText(m) + Ascii(",") + MemberText(n) + Ascii("}")
    ensures Stringify(Object([])) == Ascii("{") + Ascii("}")
    ensures MemberText(m) == Ascii("\"") + Escape(m.key) + Ascii("\"") + Ascii(":") + Stringify(m.value)
  {
    Marks();
    assert [m, n][1..] == [n];
    hide MemberText;
    assert MembersText([m, n]) == MemberText(m) + [COMMA] + MemberText(n);
    hide Ascii;
    assert Stringify(Object([m, n])) == [OPEN_OBJECT] + (MemberText(m) + [COMMA] + MemberText(n)) + [CLOSE_OBJECT];
    MemberIs(m);
  }

  lemma MemberIs(m: Member)
    ensures MemberText(m) == [QUOTE] + Escape(m.key) + [QUOTE] + [COLON] + Stringify(m.value)
  {
  }

  predicate IsSurrogate(u: Unit) {
    0xD800 <= u <= 0xDFFF
  }

  /** A unit that stands for itself in a string: neither quote nor backslash nor a control
      character. */
  predicate IsPrintable(u: Unit) {
    u >= 0x20 && u != '\"' as int && u != '\\' as int
  }

  predicate IsLowerHex(u: Unit) {
    '0' as int <= u <= '9' as int || 'a' as int <= u <= 'f' as int
  }

  /** The escape of one unit: none for a printable one, a letter for those that have one, and
      otherwise four hexadecimal digits in lower case. */
  lemma EscapeOfUnit(u: Unit)
    ensures EscapeUnit(u) == [u] <==> IsPrintable(u) && !IsSurrogate(u)
    ensures IsSurrogate(u) || (u < 32 && u !in {8, 9, 10, 12, 13}) ==>
              && |EscapeUnit(u)| == 6 && EscapeUnit(u)[0] == '\\' as int && EscapeUnit(u)[1] == 'u' as int
              && forall k :: 2 <= k < 6 ==> IsLowerHex(EscapeUnit(u)[k])
  {
    hide HexDigit;
    if EscapeUnit(u) == HexEscape(u) {
      DigitIsLowerHex(u / 4096);
      DigitIsLowerHex(u / 256 % 16);
      DigitIsLowerHex(u / 16 % 16);
      DigitIsLowerHex(u % 16);
    }
  }

  lemma DigitIsLowerHex(d: nat)
    requires d < 16
    ensures IsLowerHex(HexDigit(d))
  {
  }

  lemma LetterEscapes()
    ensures EscapeUnit(8) == ['\\' as int, 'b' as int] && EscapeUnit(9) == ['\\' as int, 't' as int]
    ensures EscapeUnit(10) == ['\\' as int, 'n' as int] && EscapeUnit(12) == ['\\' as int, 'f' as int]
    ensures EscapeUnit(13) == ['\\' as int, 'r' as int]
    ensures EscapeUnit('\"' as int) == ['\\' as int, '\"' as int]
    ensures EscapeUnit('\\' as int) == ['\\' as int, '\\' as int]
  {
    hide HexEscape;
  }

  /** Units that stand for themselves: printable, and surrogates only in pairs. */
  ghost predicate IsPlain(s: Text) {
    && (forall i :: 0 <= i < |s| ==> IsPrintable(s[i]))
    && Paired(s)
  }

  ghost predicate Paired(s: Text) {
    s == [] || if |s| >= 2 && 0xD800 <= s[0] <= 0xDBFF && 0xDC00 <= s[1] <= 0xDFFF then Paired(s[2..])
               else !IsSurrogate(s[0]) && Paired(s[1..])
  }

  /** Exactly the texts of such units are written as they are; others get longer. */
  lemma {:induction false} PlainIffUnescaped(s: Text)
    ensures |Escape(s)| >= |s|
    ensures Escape(s) == s <==> |Escape(s)| == |s|
    ensures Escape(s) == s <==> IsPlain(s)
    decreases |s|
  {
    hide EscapeUnit, IsPrintable;
    if s == [] {
    } else if |s| >= 2 && IsLead(s[0]) && IsTrail(s[1]) {
      PlainIffUnescaped(s[2..]);
      assert s == [s[0], s[1]] + s[2..];
      SurrogatesArePrintable(s[0]);
      SurrogatesArePrintable(s[1]);
      assert forall i :: 2 <= i < |s| ==> s[i] == s[2..][i - 2];
    } else {
      PlainIffUnescaped(s[1..]);
      assert s == [s[0]] + s[1..];
      EscapeOfUnit(s[0]);
      EscapeLonger(s[0]);
      SurrogatesArePrintable(s[0]);
      assert forall i :: 1 <= i < |s| ==> s[i] == s[1..][i - 1];
    }
  }

  lemma SurrogatesArePrintable(u: Unit)
    ensures IsSurrogate(u) ==> IsPrintable(u)
  {
  }

  lemma EscapeLonger(u: Unit)
    ensures |EscapeUnit(u)| >= 1
    ensures |EscapeUnit(u)| == 1 ==> EscapeUnit(u) == [u]
  {
  }

  // ------------------------------------------------------------------ reading

  function HexValue(u: Unit): Option<nat> {
    if 48 <= u <= 57 then Some(u - 48) else if 97 <= u <= 102 then Some(u - 87) else None
  }

  function UnescapeLetter(c: Unit): Option<Unit> {
    if c == 98 then Some(8) else if c == 116 then Some(9) else if c == 110 then Some(10)
    else if c == 102 then Some(12) else if c == 114 then Some(13)
    else if c == QUOTE || c == BACKSLASH then Some(c) else None
  }

  function ReadHex(t: Text): Option<Unit>
    requires |t| >= 4
  {
    var a, b, c, d := HexValue(t[0]), HexValue(t[1]), HexValue(t[2]), HexValue(t[3]);
    if a.None? || b.None? || c.None? || d.None? then None
    else
      var n := 4096 * a.value + 256 * b.value + 16 * c.value + d.value;
      if n < 0x1_0000 then Some(n) else None
  }

  datatype ReadUnitResult = Unread | End | Got(u: Unit, used: nat)

  /** The next unit of a string literal and how much text it takes. */
  function ReadUnit(t: Text): ReadUnitResult {
    if t == [] then Unread
    else if t[0] == QUOTE then End
    else if t[0] != BACKSLASH then Got(t[0], 1)
    else if |t| < 2 then Unread
    else if UnescapeLetter(t[1]).Some? then Got(UnescapeLetter(t[1]).value, 2)
    else if t[1] == 117 && |t| >= 6 && ReadHex(t[2..]).Some? then Got(ReadHex(t[2..]).value, 6)
    else Unread
  }

  /** A string literal after its opening quote: the string, and the text after the closing
      quote. */
  function ReadString(t: Text): (r: Option<(Text, Text)>)
    ensures r.Some? ==> |r.value.1| < |t|
    decreases |t|
  {
    match ReadUnit(t)
    case Unread => None
    case End => Some(([], t[1..]))
    case Got(u, used) =>
      var r := ReadString(t[used..]);
      if r.None? then None else Some(([u] + r.value.0, r.value.1))
  }

  function NumberPrefix(t: Text): (n: nat)
    ensures n <= |t|
  {
    if t == [] || !IsNumberUnit(t[0]) then 0 else 1 + NumberPrefix(t[1..])
  }

  /** A value at the start of a text, and the text after it. */
  function ReadValue(t: Text): (r: Option<(Json, Text)>)
    ensures r.Some? ==> |r.value.1| < |t|
    decreases |t|, 1
  {
    if t == [] then None
    else if t[0] == NULL_TEXT[0] && NULL_TEXT <= t then Some((Null, t[4..]))
    else if t[0] == TRUE_TEXT[0] && TRUE_TEXT <= t then Some((Bool(true), t[4..]))
    else if t[0] == FALSE_TEXT[0] && FALSE_TEXT <= t then Some((Bool(false), t[5..]))
    else if t[0] == QUOTE then
      var r := ReadString(t[1..]);
      if r.None? then None else Some((String(r.value.0), r.value.1))
    else if t[0] == OPEN_LIST then
      if |t| >= 2 && t[1] == CLOSE_LIST then Some((Array([]), t[2..]))
      else
        var r := ReadItems(t[1..]);
        if r.None? then None else Some((Array(r.value.0), r.value.1))
    else if t[0] == OPEN_OBJECT then
      if |t| >= 2 && t[1] == CLOSE_OBJECT then Some((Object([]), t[2..]))
      else
        var r := ReadMembers(t[1..]);
        if r.None? then None else Some((Object(r.value.0), r.value.1))
    else if NumberPrefix(t) > 0 then Some((Number(t[..NumberPrefix(t)]), t[NumberPrefix(t)..]))
    else None
  }

  /** Items up to and including the closing bracket. */
  function ReadItems(t: Text): (r: Option<(seq<Json>, Text)>)
    ensures r.Some? ==> |r.value.1| < |t|
    decreases |t|, 2
  {
    var first := ReadValue(t);
    if first.None? || first.value.1 == [] then None
    else
      var rest := first.value.1;
      if rest[0] == CLOSE_LIST then Some(([first.value.0], rest[1..]))
      else if rest[0] != COMMA then None
      else
        var r := ReadItems(rest[1..]);
        if r.None? then None else Some(([first.value.0] + r.value.0, r.value.1))
  }

  function ReadMember(t: Text): (r: Option<(Member, Text)>)
    ensures r.Some? ==> |r.value.1| < |t|
    decreases |t|, 0
  {
    if t == [] || t[0] != QUOTE then None
    else
      var k := ReadString(t[1..]);
      if k.None? || k.value.1 == [] || k.value.1[0] != COLON then None
      else
        var v := ReadValue(k.value.1[1..]);
        if v.None? then None else Some((Member(k.value.0, v.value.0), v.value.1))
  }

  function ReadMembers(t: Text): (r: Option<(seq<Member>, Text)>)
    ensures r.Some? ==> |r.value.1| < |t|
    decreases |t|, 2
  {
    var first := ReadMember(t);
    if first.None? || first.value.1 == [] then None
    else
      var rest := first.value.1;
      if rest[0] == CLOSE_OBJECT then Some(([first.value.0], rest[1..]))
      else if rest[0] != COMMA then None
      else
        var r := ReadMembers(rest[1..]);
        if r.None? then None else Some(([first.value.0] + r.value.0, r.value.1))
  }

  // ----------------------------------------------------------- the round trip

  lemma HexDigitsSum(u: nat)
    requires u < 0x1_0000
    ensures u / 4096 < 16 && 4096 * (u / 4096) + 256 * (u / 256 % 16) + 16 * (u / 16 % 16) + u % 16 == u
  {
    assert u / 256 == u / 4096 * 16 + u / 256 % 16;
    assert u / 16 == u / 256 * 16 + u / 16 % 16;
  }

  lemma HexRoundTrip(u: Unit, rest: Text)
    ensures ReadHex(HexEscape(u)[2..] + rest) == Some(u)
  {
    var t := HexEscape(u)[2..] + rest;
    HexDigitsSum(u);
    var a, b, c, d := u / 4096, u / 256 % 16, u / 16 % 16, u % 16;
    assert t[0] == HexDigit(a) && t[1] == HexDigit(b) && t[2] == HexDigit(c) && t[3] == HexDigit(d);
    HexDigitRoundTrip(a);
    HexDigitRoundTrip(b);
    HexDigitRoundTrip(c);
    HexDigitRoundTrip(d);
  }

  lemma HexDigitRoundTrip(d: nat)
    requires d < 16
    ensures HexValue(HexDigit(d)) == Some(d)
  {
  }

  lemma ReadEscapedUnit(u: Unit, rest: Text)
    ensures ReadUnit(EscapeUnit(u) + rest) == Got(u, |EscapeUnit(u)|)
    ensures (EscapeUnit(u) + rest)[|EscapeUnit(u)|..] == rest
  {
    var t := EscapeUnit(u) + rest;
    if EscapeLetter(u).None? && (u < 32 || IsLead(u) || IsTrail(u)) {
      assert t[2..] == HexEscape(u)[2..] + rest;
      HexRoundTrip(u, rest);
    }
  }

  lemma {:induction false} ReadEscaped(s: Text, rest: Text)
    ensures ReadString(Escape(s) + [QUOTE] + rest) == Some((s, rest))
    decreases |s|
  {
    hide EscapeUnit, ReadUnit;
    var t := Escape(s) + [QUOTE] + rest;
    if s == [] {
      ReadPlain(QUOTE, rest);
      assert t == [QUOTE] + rest;
    } else if |s| >= 2 && IsLead(s[0]) && IsTrail(s[1]) {
      var tail := Escape(s[2..]) + [QUOTE] + rest;
      ReadEscaped(s[2..], rest);
      assert t == [s[0]] + ([s[1]] + tail);
      ReadPlain(s[1], tail);
      ReadPlain(s[0], [s[1]] + tail);
      assert s == [s[0]] + ([s[1]] + s[2..]);
    } else {
      var tail := Escape(s[1..]) + [QUOTE] + rest;
      ReadEscaped(s[1..], rest);
      assert t == EscapeUnit(s[0]) + tail;
      ReadEscapedUnit(s[0], tail);
      assert s == [s[0]] + s[1..];
    }
  }

  lemma ReadPlain(u: Unit, rest: Text)
    requires u != BACKSLASH
    ensures ReadUnit([u] + rest) == if u == QUOTE then End else Got(u, 1)
    ensures ([u] + rest)[1..] == rest
  {
  }

  /** What may follow a value: anything that does not continue a number. */
  predicate Ends(rest: Text) {
    rest == [] || !IsNumberUnit(rest[0])
  }

  lemma {:induction false} NumberPrefixStops(digits: Text, rest: Text)
    requires Ends(rest) && forall i :: 0 <= i < |digits| ==> IsNumberUnit(digits[i])
    ensures NumberPrefix(digits + rest) == |digits|
  {
    if digits == [] {
      assert digits + rest == rest;
    } else {
      assert (digits + rest)[1..] == digits[1..] + rest;
      NumberPrefixStops(digits[1..], rest);
    }
  }

  lemma FirstUnit(v: Json)
    requires WellFormed(v)
    ensures Stringify(v) != [] && Stringify(v)[0] != CLOSE_LIST
  {
  }

  /** Reading what was written gives back the value, whatever follows it. */
  lemma {:induction false} ReadOfStringify(v: Json, rest: Text)
    requires WellFormed(v) && Defined(v) && Ends(rest)
    ensures ReadValue(Stringify(v) + rest) == Some((v, rest))
    decreases v, 0
  {
    hide ReadItems, ReadMembers, ReadString, Escape, ItemsText, MembersText, NumberPrefix;
    var t := Stringify(v) + rest;
    match v
    case Null => assert t[0] == NULL_TEXT[0] && t[4..] == rest;
    case Bool(b) =>
      if b {
        assert t[0] == TRUE_TEXT[0] && t[4..] == rest;
      } else {
        assert t[0] == FALSE_TEXT[0] && t[5..] == rest;
      }
    case Number(digits) =>
      NumberPrefixStops(digits, rest);
      assert t[..|digits|] == digits && t[|digits|..] == rest;
    case String(s) =>
      ReadEscaped(s, rest);
      assert t[1..] == Escape(s) + [QUOTE] + rest;
    case Array(items) =>
      if items == [] {
        EmptyText();
        assert t == [OPEN_LIST, CLOSE_LIST] + rest && t[2..] == rest;
      } else {
        ReadOfItems(items, rest);
        ItemsFirst(items);
        assert t[1..] == ItemsText(items) + [CLOSE_LIST] + rest;
        assert t[1] == ItemsText(items)[0];
      }
    case Object(ms) =>
      if ms == [] {
        EmptyText();
        assert t == [OPEN_OBJECT, CLOSE_OBJECT] + rest && t[2..] == rest;
      } else {
        ReadOfMembers(ms, rest);
        MembersFirst(ms);
        assert t[1..] == MembersText(ms) + [CLOSE_OBJECT] + rest;
        assert t[1] == MembersText(ms)[0];
      }
  }

  lemma EmptyText()
    ensures ItemsText([]) == [] && MembersText([]) == []
  {
  }

  lemma ItemsFirst(items: seq<Json>)
    requires items != [] && WellFormed(items[0])
    ensures ItemsText(items) != [] && ItemsText(items)[0] != CLOSE_LIST
  {
    FirstUnit(items[0]);
  }

  lemma MembersFirst(ms: seq<Member>)
    requires ms != []
    ensures MembersText(ms) != [] && MembersText(ms)[0] == QUOTE
  {
  }

  lemma ReadLastItem(t: Text, v: Json, rest: Text)
    requires ReadValue(t) == Some((v, [CLOSE_LIST] + rest))
    ensures ReadItems(t) == Some(([v], rest))
  {
    hide ReadValue;
    assert ([CLOSE_LIST] + rest)[1..] == rest;
  }

  lemma ReadNextItem(t: Text, v: Json, others: Text, vs: seq<Json>, rest: Text)
    requires ReadValue(t) == Some((v, [COMMA] + others)) && ReadItems(others) == Some((vs, rest))
    ensures ReadItems(t) == Some(([v] + vs, rest))
  {
    hide ReadValue;
    assert ([COMMA] + others)[1..] == others;
  }

  lemma ReadLastMember(t: Text, m: Member, rest: Text)
    requires ReadMember(t) == Some((m, [CLOSE_OBJECT] + rest))
    ensures ReadMembers(t) == Some(([m], rest))
  {
    hide ReadMember;
    assert ([CLOSE_OBJECT] + rest)[1..] == rest;
  }

  lemma ReadNextMember(t: Text, m: Member, others: Text, ms: seq<Member>, rest: Text)
    requires ReadMember(t) == Some((m, [COMMA] + others)) && ReadMembers(others) == Some((ms, rest))
    ensures ReadMembers(t) == Some(([m] + ms, rest))
  {
    hide ReadMember;
    assert ([COMMA] + others)[1..] == others;
  }

  lemma {:induction false} ReadOfItems(items: seq<Json>, rest: Text)
    requires items != [] && forall i :: 0 <= i < |items| ==> WellFormed(items[i]) && Defined(items[i])
    ensures ReadItems(ItemsText(items) + [CLOSE_LIST] + rest) == Some((items, rest))
    decreases items, 1
  {
    hide ReadValue, Stringify, ReadItems, WellFormed, Defined;
    var t := ItemsText(items) + [CLOSE_LIST] + rest;
    if |items| == 1 {
      var after := [CLOSE_LIST] + rest;
      ReadOfStringify(items[0], after);
      assert items == [items[0]];
      assert t == Stringify(items[0]) + after;
      ReadLastItem(t, items[0], rest);
    } else {
      var others := ItemsText(items[1..]) + [CLOSE_LIST] + rest;
      ReadOfStringify(items[0], [COMMA] + others);
      ReadOfItems(items[1..], rest);
      assert t == Stringify(items[0]) + ([COMMA] + others);
      ReadNextItem(t, items[0], others, items[1..], rest);
      assert items == [items[0]] + items[1..];
    }
  }

  lemma {:induction false} ReadOfMember(m: Member, rest: Text)
    requires WellFormed(m.value) && Defined(m.value) && Ends(rest)
    ensures ReadMember(MemberText(m) + rest) == Some((m, rest))
    decreases m, 0
  {
    hide ReadValue, Stringify, ReadString, Escape;
    var t, value := MemberText(m) + rest, Stringify(m.value) + rest;
    ReadEscaped(m.key, [COLON] + value);
    ReadOfStringify(m.value, rest);
    assert t[1..] == Escape(m.key) + [QUOTE] + ([COLON] + value);
    assert ([COLON] + value)[1..] == value;
  }

  lemma {:induction false} ReadOfMembers(ms: seq<Member>, rest: Text)
    requires ms != [] && forall i :: 0 <= i < |ms| ==> WellFormed(ms[i].value) && Defined(ms[i].value)
    ensures ReadMembers(MembersText(ms) + [CLOSE_OBJECT] + rest) == Some((ms, rest))
    decreases ms, 1
  {
    hide ReadMember, MemberText, ReadMembers, WellFormed, Defined;
    var t := MembersText(ms) + [CLOSE_OBJECT] + rest;
    if |ms| == 1 {
      var after := [CLOSE_OBJECT] + rest;
      ReadOfMember(ms[0], after);
      assert ms == [ms[0]];
      assert t == MemberText(ms[0]) + after;
      ReadLastMember(t, ms[0], rest);
    } else {
      var others := MembersText(ms[1..]) + [CLOSE_OBJECT] + rest;
      ReadOfMember(ms[0], [COMMA] + others);
      ReadOfMembers(ms[1..], rest);
      assert t == MemberText(ms[0]) + ([COMMA] + others);
      ReadNextMember(t, ms[0], others, ms[1..], rest);
      assert ms == [ms[0]] + ms[1..];
    }
  }

  /** Serialisation is injective on values without `undefined`. */
  lemma StringifyInjective(v: Json, w: Json)
    requires WellFormed(v) && Defined(v) && WellFormed(w) && Defined(w)
    requires Stringify(v) == Stringify(w)
    ensures v == w
  {
    ReadOfStringify(v, []);
    ReadOfStringify(w, []);
    assert Stringify(v) + [] == Stringify(v) && Stringify(w) + [] == Stringify(w);
  }

  /** Two values have the same canonical text exactly when they are equal up to the order
      of object keys, reading `undefined` as `null`. */
  lemma CanonicalIff(a: Json, b: Json)
    requires WellFormed(a) && WellFormed(b)
    ensures CanonicalStringify(a) == CanonicalStringify(b) <==> Equivalent(a, b)
  {
    SortedIsNormalForm(a);
    SortedIsNormalForm(b);
    if CanonicalStringify(a) == CanonicalStringify(b) {
      StringifyInjective(Sorted(a), Sorted(b));
      SortAlikeEquivalent(a, b);
    }
    if Equivalent(a, b) {
      EquivalentSortAlike(a, b);
    }
  }
}
