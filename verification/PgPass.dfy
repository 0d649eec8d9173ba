/** The `.pgpass` line format: colon-separated fields in which a backslash protects the
    next character. A printer escapes each field, a parser splits a line back. */
module PgPass {
  import opened Wrappers
  import opened JsStrings

  datatype Entry = Entry(hostname: string, port: string, database: string, username: string, password: string)

  // ---------------------------------------------------------------- printing

  function ReplaceAll(s: string, c: char, into: string): string {
    if s == "" then ""
    else (if s[0] == c then into else [s[0]]) + ReplaceAll(s[1..], c, into)
  }

  /** Backslashes first, then colons. */
  function Escape(s: string): string {
    ReplaceAll(ReplaceAll(s, '\\', "\\\\"), ':', "\\:")
  }

  function Decimal(n: nat): string {
    if n < 10 then ['0' + n as char] else Decimal(n / 10) + ['0' + (n % 10) as char]
  }

  function CreatePgPassEntry(host: string, port: nat, database: string, user: string, password: string): string {
    Escape(host) + ":" + Decimal(port) + ":" + Escape(database) + ":" + Escape(user) + ":" + Escape(password)
  }

  // ---------------------------------------------------------------- parsing

  function OntoFirst(prefix: string, fields: seq<string>): (r: seq<string>)
    requires fields != []
    ensures prefix == "" ==> r == fields
  {
    assert prefix == "" ==> prefix + fields[0] == fields[0];
    [prefix + fields[0]] + fields[1..]
  }

  /** The fields a line denotes. A backslash stands for the character after it; one at the
      end of the line stands for nothing. */
  function Fields(s: string): (fields: seq<string>)
    ensures fields != []
  {
    if s == "" then [""]
    else if s[0] == ':' then [""] + Fields(s[1..])
    else if s[0] != '\\' then OntoFirst([s[0]], Fields(s[1..]))
    else FieldsAfterBackslash(s[1..])
  }

  function FieldsAfterBackslash(s: string): (fields: seq<string>)
    ensures fields != []
  {
    if s == "" then [""] else OntoFirst([s[0]], Fields(s[1..]))
  }

  ghost function FieldsFrom(s: string, escaped: bool): (fields: seq<string>)
    ensures fields != []
  {
    if escaped then FieldsAfterBackslash(s) else Fields(s)
  }

  lemma OntoFirstTwice(a: string, b: string, fields: seq<string>)
    requires fields != []
    ensures OntoFirst(a, OntoFirst(b, fields)) == OntoFirst(a + b, fields)
    ensures OntoFirst(a, [""] + fields) == [a] + fields
  {
    assert a + (b + fields[0]) == (a + b) + fields[0];
    assert a + "" == a;
  }

  ghost function ParsedLine(line: string): Option<Entry> {
    var trimmed := Trim(line);
    var parts := Fields(trimmed);
    if trimmed == "" || trimmed[0] == '#' || |parts| != 5 then None
    else Some(Entry(parts[0], parts[1], parts[2], parts[3], parts[4]))
  }

  /** The colons of a line that no backslash protects. */
  ghost function Separators(s: string): nat {
    if s == "" then 0
    else if s[0] == '\\' then (if |s| == 1 then 0 else Separators(s[2..]))
    else Separators(s[1..]) + if s[0] == ':' then 1 else 0
  }

  lemma {:induction false} FieldCount(s: string)
    ensures |Fields(s)| == Separators(s) + 1
    decreases |s|
  {
    if s == "" {
    } else if s[0] != '\\' {
      FieldCount(s[1..]);
    } else if |s| > 1 {
      FieldCount(s[2..]);
      assert s[1..][1..] == s[2..];
    }
  }

  /** A line is an entry exactly if, trimmed, it is neither empty nor a comment and has four
      unprotected colons; the entry has the fields in their order. */
  lemma EntryIff(line: string)
    ensures var trimmed := Trim(line);
      ParsedLine(line).Some? <==> trimmed != "" && trimmed[0] != '#' && Separators(trimmed) == 4
    ensures ParsedLine(line).Some? ==>
      var e := ParsedLine(line).value;
      Fields(Trim(line)) == [e.hostname, e.port, e.database, e.username, e.password]
  {
    FieldCount(Trim(line));
  }

  /** What one more character does to the fields read so far. */
  lemma ReadChar(all: seq<string>, parts: seq<string>, current: string, s: string, escaped: bool)
    requires s != "" && all == parts + OntoFirst(current, FieldsFrom(s, escaped))
    ensures escaped || (s[0] != '\\' && s[0] != ':') ==>
              all == parts + OntoFirst(current + [s[0]], FieldsFrom(s[1..], false))
    ensures !escaped && s[0] == '\\' ==> all == parts + OntoFirst(current, FieldsFrom(s[1..], true))
    ensures !escaped && s[0] == ':' ==> all == parts + [current] + OntoFirst("", FieldsFrom(s[1..], false))
  {
    var c, rest := s[0], Fields(s[1..]);
    OntoFirstTwice(current, [c], rest);
    hide OntoFirst;
    if !escaped && c == ':' {
      assert parts + ([current] + rest) == parts + [current] + rest;
    }
  }

  lemma NothingLeft(all: seq<string>, parts: seq<string>, current: string, escaped: bool)
    requires all == parts + OntoFirst(current, FieldsFrom("", escaped))
    ensures all == parts + [current]
  {
    assert current + "" == current;
  }

  method ParsePgPassLine(line: string) returns (entry: Option<Entry>)
    ensures entry == ParsedLine(line)
  {
    hide Trim;
    var trimmed := Trim(line);
    if trimmed == "" || trimmed[0] == '#' {
      return None;
    }
    var parts: seq<string> := [];
    var current := "";
    var escaped := false;
    assert trimmed[0..] == trimmed && FieldsFrom(trimmed, false) == Fields(trimmed);
    hide FieldsFrom, Fields, OntoFirst;
    for i := 0 to |trimmed|
      invariant Fields(trimmed) == parts + OntoFirst(current, FieldsFrom(trimmed[i..], escaped))
    {
      var c := trimmed[i];
      assert trimmed[i..][0] == c && trimmed[i..][1..] == trimmed[i + 1..];
      ReadChar(Fields(trimmed), parts, current, trimmed[i..], escaped);
      if escaped {
        current := current + [c];
        escaped := false;
      } else if c == '\\' {
        escaped := true;
      } else if c == ':' {
        parts := parts + [current];
        current := "";
      } else {
        current := current + [c];
      }
    }
    assert trimmed[|trimmed|..] == "";
    NothingLeft(Fields(trimmed), parts, current, escaped);
    parts := parts + [current];
    if |parts| != 5 {
      return None;
    }
    return Some(Entry(parts[0], parts[1], parts[2], parts[3], parts[4]));
  }

  // ---------------------------------------------------------------- the round trip

  function EscapeChar(c: char): string {
    if c == '\\' || c == ':' then ['\\', c] else [c]
  }

  /** What escaping means: each colon and each backslash gets one backslash before it. */
  ghost function Protected(s: string): string {
    if s == "" then "" else EscapeChar(s[0]) + Protected(s[1..])
  }

  lemma {:induction false} ReplaceAllAppend(a: string, b: string, c: char, into: string)
    ensures ReplaceAll(a + b, c, into) == ReplaceAll(a, c, into) + ReplaceAll(b, c, into)
  {
    if a == "" {
      assert a + b == b;
    } else {
      assert (a + b)[1..] == a[1..] + b;
      ReplaceAllAppend(a[1..], b, c, into);
    }
  }

  lemma ReplaceOne(d: char, c: char, into: string)
    ensures ReplaceAll([d], c, into) == if d == c then into else [d]
  {
    assert [d][1..] == "";
    assert into + "" == into;
  }

  /** The two replacement passes do not disturb each other. */
  lemma {:induction false} EscapeIsProtected(s: string)
    ensures Escape(s) == Protected(s)
  {
    if s != "" {
      var c, first := s[0], ReplaceAll(s[1..], '\\', "\\\\");
      EscapeIsProtected(s[1..]);
      var head := if c == '\\' then "\\\\" else [c];
      assert ReplaceAll(s, '\\', "\\\\") == head + first;
      ReplaceAllAppend(head, first, ':', "\\:");
      assert ReplaceAll(head, ':', "\\:") == EscapeChar(c) by {
        ReplaceOne(c, ':', "\\:");
        if c == '\\' {
          assert head == [c] + [c];
          ReplaceAllAppend([c], [c], ':', "\\:");
        }
      }
    }
  }

  lemma {:induction false} ProtectedAppend(s: string, c: char)
    ensures Protected(s + [c]) == Protected(s) + EscapeChar(c)
  {
    if s == "" {
      assert s + [c] == [c] && [c][1..] == "";
    } else {
      assert (s + [c])[1..] == s[1..] + [c];
      ProtectedAppend(s[1..], c);
    }
  }

  ghost function ValueOf(digits: string): int {
    if digits == "" then 0
    else ValueOf(digits[..|digits| - 1]) * 10 + (digits[|digits| - 1] as int - '0' as int)
  }

  lemma {:induction false} DecimalIsDigits(n: nat)
    ensures Decimal(n) != "" && ValueOf(Decimal(n)) == n
    ensures forall i :: 0 <= i < |Decimal(n)| ==> '0' <= Decimal(n)[i] <= '9'
  {
    var d := Decimal(n);
    if n >= 10 {
      DecimalIsDigits(n / 10);
      assert d[..|d| - 1] == Decimal(n / 10);
    } else {
      assert d[..|d| - 1] == "";
    }
  }

  lemma {:induction false} ProtectedDigits(s: string)
    requires forall i :: 0 <= i < |s| ==> '0' <= s[i] <= '9'
    ensures Protected(s) == s
  {
    if s != "" {
      ProtectedDigits(s[1..]);
    }
  }

  /** A protected field in front of a separator is read back as one whole field. */
  lemma {:induction false} FieldsOfProtected(a: string, rest: string)
    requires rest == "" || rest[0] == ':'
    ensures Fields(Protected(a) + rest) == OntoFirst(a, Fields(rest))
  {
    if a == "" {
      assert Protected(a) + rest == rest;
    } else {
      var c, tail, text := a[0], a[1..], Protected(a[1..]) + rest;
      FieldsOfProtected(tail, rest);
      assert Protected(a) + rest == EscapeChar(c) + text;
      FieldsOfEscapedChar(c, text);
      OntoFirstTwice([c], tail, Fields(rest));
      assert [c] + tail == a;
    }
  }

  lemma FieldsOfEscapedChar(c: char, text: string)
    ensures Fields(EscapeChar(c) + text) == OntoFirst([c], Fields(text))
  {
    assert ([c] + text)[1..] == text;
    if c == '\\' || c == ':' {
      assert (EscapeChar(c) + text)[1..] == [c] + text;
    }
  }

  lemma {:induction false} TrimLeftOfProtected(h: string, rest: string)
    requires rest != "" && rest[0] == ':'
    ensures TrimLeft(Protected(h) + rest) == Protected(TrimLeft(h)) + rest
  {
    if h == "" {
      assert Protected(h) + rest == rest;
    } else if IsSpace(h[0]) {
      var text := Protected(h[1..]) + rest;
      assert Protected(h) + rest == [h[0]] + text;
      assert ([h[0]] + text)[1..] == text;
      TrimLeftOfProtected(h[1..], rest);
    } else {
      assert !IsSpace((Protected(h) + rest)[0]);
    }
  }

  lemma TrimRightStep(s: string, c: char)
    ensures TrimRight(s + [c]) == if IsSpace(c) then TrimRight(s) else s + [c]
  {
    assert (s + [c])[..|s|] == s;
  }

  lemma {:induction false} TrimRightOfProtected(front: string, p: string)
    requires front != "" && front[|front| - 1] == ':'
    ensures TrimRight(front + Protected(p)) == front + Protected(TrimRight(p))
  {
    if p == "" {
      assert front + Protected(p) == front;
    } else {
      var init, c := p[..|p| - 1], p[|p| - 1];
      assert p == init + [c];
      ProtectedAppend(init, c);
      TrimRightStep(init, c);
      if IsSpace(c) {
        assert front + Protected(p) == (front + Protected(init)) + [c];
        TrimRightStep(front + Protected(init), c);
        TrimRightOfProtected(front, init);
      } else {
        TrimRightStep((front + Protected(p))[..|front + Protected(p)| - 1], c);
      }
    }
  }

  /** Protected fields joined by separators. */
  ghost function Line(fields: seq<string>): string
    requires fields != []
  {
    if |fields| == 1 then Protected(fields[0])
    else Protected(fields[0]) + (":" + Line(fields[1..]))
  }

  lemma {:induction false} FieldsOfLine(fields: seq<string>)
    requires fields != []
    ensures Fields(Line(fields)) == fields
  {
    var f := fields[0];
    assert fields == [f] + fields[1..] && f + "" == f;
    if |fields| == 1 {
      FieldsOfProtected(f, "");
      assert Protected(f) + "" == Protected(f);
    } else {
      var rest := Line(fields[1..]);
      FieldsOfLine(fields[1..]);
      assert (":" + rest)[1..] == rest;
      FieldsOfProtected(f, ":" + rest);
    }
  }

  lemma Reassociate(a: string, b: string, c: string, d: string, e: string)
    ensures a + ":" + b + ":" + c + ":" + d + ":" + e
         == a + (":" + (b + (":" + (c + (":" + (d + (":" + e)))))))
    ensures a + (":" + (b + (":" + (c + (":" + (d + (":" + e)))))))
         == (a + ":" + b + ":" + c + ":" + d + ":") + e
  {
  }

  lemma LineOfFive(a: string, b: string, c: string, d: string, e: string)
    ensures Line([a, b, c, d, e]) == Protected(a) + (":" + Line([b, c, d, e]))
    ensures Line([a, b, c, d, e]) ==
      Protected(a) + ":" + Protected(b) + ":" + Protected(c) + ":" + Protected(d) + ":" + Protected(e)
    ensures Line([a, b, c, d, e]) ==
      (Protected(a) + ":" + Protected(b) + ":" + Protected(c) + ":" + Protected(d) + ":") + Protected(e)
  {
    assert [a, b, c, d, e][1..] == [b, c, d, e];
    assert [b, c, d, e][1..] == [c, d, e];
    assert [c, d, e][1..] == [d, e];
    assert [d, e][1..] == [e];
    assert Line([d, e]) == Protected(d) + (":" + Protected(e));
    assert Line([c, d, e]) == Protected(c) + (":" + Line([d, e]));
    assert Line([b, c, d, e]) == Protected(b) + (":" + Line([c, d, e]));
    Reassociate(Protected(a), Protected(b), Protected(c), Protected(d), Protected(e));
  }

  lemma EntryIsLine(host: string, port: nat, database: string, user: string, password: string)
    ensures CreatePgPassEntry(host, port, database, user, password)
         == Line([host, Decimal(port), database, user, password])
  {
    EscapeIsProtected(host);
    EscapeIsProtected(database);
    EscapeIsProtected(user);
    EscapeIsProtected(password);
    DecimalIsDigits(port);
    ProtectedDigits(Decimal(port));
    LineOfFive(host, Decimal(port), database, user, password);
  }

  lemma TrimOfLine(a: string, b: string, c: string, d: string, e: string)
    ensures Trim(Line([a, b, c, d, e])) == Line([TrimLeft(a), b, c, d, TrimRight(e)])
  {
    var a', e' := TrimLeft(a), TrimRight(e);
    LineOfFive(a, b, c, d, e);
    TrimLeftOfProtected(a, ":" + Line([b, c, d, e]));
    LineOfFive(a', b, c, d, e);
    var front := Protected(a') + ":" + Protected(b) + ":" + Protected(c) + ":" + Protected(d) + ":";
    TrimRightOfProtected(front, e);
    LineOfFive(a', b, c, d, e');
  }

  /** What parsing makes of a printed entry, for every host, database, user and password:
      colons and backslashes survive anywhere; white space in front of the host and after
      the password is lost; a host that then starts with `#` reads as a comment. */
  lemma ParseOfCreated(host: string, port: nat, database: string, user: string, password: string)
    ensures ParsedLine(CreatePgPassEntry(host, port, database, user, password)) ==
            var h := TrimLeft(host);
            if h != "" && h[0] == '#' then None
            else Some(Entry(h, Decimal(port), database, user, TrimRight(password)))
  {
    var h, p := TrimLeft(host), TrimRight(password);
    EntryIsLine(host, port, database, user, password);
    TrimOfLine(host, Decimal(port), database, user, password);
    FieldsOfLine([h, Decimal(port), database, user, p]);
    LineOfFive(h, Decimal(port), database, user, p);
  }

  /** Parsing undoes printing exactly when the host does not start with white space or
      `#` and the password does not end with white space. */
  lemma RoundTripIff(host: string, port: nat, database: string, user: string, password: string)
    ensures ParsedLine(CreatePgPassEntry(host, port, database, user, password))
              == Some(Entry(host, Decimal(port), database, user, password))
            <==>
            && (host == "" || (!IsSpace(host[0]) && host[0] != '#'))
            && (password == "" || !IsSpace(password[|password| - 1]))
  {
    ParseOfCreated(host, port, database, user, password);
    TrimLeftRemovesSpace(host);
    TrimRightRemovesSpace(password);
  }
}
