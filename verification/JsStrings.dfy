/** The parts of JavaScript's strings that the checks and parsers rely on. */
module JsStrings {

  // What JavaScript's String.prototype.trim removes: white space and line terminators
  // (ECMAScript, WhiteSpace and LineTerminator).
  predicate IsSpace(c: char) {
    var n := c as int;
    || 0x09 <= n <= 0x0D || n == 0x20 || n == 0xA0 || n == 0x1680 || 0x2000 <= n <= 0x200A
    || n == 0x2028 || n == 0x2029 || n == 0x202F || n == 0x205F || n == 0x3000 || n == 0xFEFF
  }

  /** The code points in question, one by one. */
  lemma SpaceIff(c: char)
    ensures IsSpace(c) <==> c as int in {
              9, 10, 11, 12, 13, 32, 160, 5760, 8192, 8193, 8194, 8195, 8196, 8197, 8198, 8199, 8200, 8201, 8202,
              8232, 8233, 8239, 8287, 12288, 65279}
  {
  }

  function TrimLeft(s: string): string {
    if s != "" && IsSpace(s[0]) then TrimLeft(s[1..]) else s
  }

  function TrimRight(s: string): string {
    if s != "" && IsSpace(s[|s| - 1]) then TrimRight(s[..|s| - 1]) else s
  }

  function Trim(s: string): string {
    TrimRight(TrimLeft(s))
  }

  /** Trimming removes exactly the outer white space. */
  lemma {:induction false} TrimLeftRemovesSpace(s: string)
    ensures var r := TrimLeft(s);
      && |r| <= |s| && r == s[|s| - |r|..] && (r == "" || !IsSpace(r[0]))
      && forall i :: 0 <= i < |s| - |r| ==> IsSpace(s[i])
  {
    if s != "" && IsSpace(s[0]) {
      TrimLeftRemovesSpace(s[1..]);
      var r := TrimLeft(s[1..]);
      assert forall i :: 1 <= i < |s| - |r| ==> s[i] == s[1..][i - 1];
    }
  }

  lemma {:induction false} TrimRightRemovesSpace(s: string)
    ensures var r := TrimRight(s);
      && r <= s && (r == "" || !IsSpace(r[|r| - 1]))
      && forall i :: |r| <= i < |s| ==> IsSpace(s[i])
  {
    if s != "" && IsSpace(s[|s| - 1]) {
      TrimRightRemovesSpace(s[..|s| - 1]);
    }
  }

  lemma TrimIsIdentityIff(s: string)
    ensures Trim(s) == s <==> s == "" || (!IsSpace(s[0]) && !IsSpace(s[|s| - 1]))
  {
    TrimLeftRemovesSpace(s);
    TrimRightRemovesSpace(TrimLeft(s));
  }

  /** The length as JavaScript counts it, in UTF-16 code units. */
  function Utf16Length(s: string): nat {
    if s == "" then 0 else Utf16Length(s[..|s| - 1]) + if s[|s| - 1] as int < 0x10000 then 1 else 2
  }

  lemma {:induction false} Utf16LengthAppend(a: string, b: string)
    ensures Utf16Length(a + b) == Utf16Length(a) + Utf16Length(b)
  {
    if b == "" {
      assert a + b == a;
    } else {
      Utf16LengthAppend(a, b[..|b| - 1]);
      assert (a + b)[..|a + b| - 1] == a + b[..|b| - 1];
    }
  }

  /** The UTF-16 form of one character: a single unit, or two surrogates that carry ten bits
      each. */
  ghost function Utf16(c: char): seq<int> {
    var n := c as int;
    if n <= 0xFFFF then [n] else [0xD800 + (n - 0x10000) / 0x400, 0xDC00 + (n - 0x10000) % 0x400]
  }

  ghost function Utf16Text(s: string): seq<int> {
    if s == "" then [] else Utf16Text(s[..|s| - 1]) + Utf16(s[|s| - 1])
  }

  lemma {:induction false} Utf16LengthIsOfText(s: string)
    ensures Utf16Length(s) == |Utf16Text(s)|
  {
    if s != "" {
      Utf16LengthIsOfText(s[..|s| - 1]);
    }
  }

  lemma {:induction false} Utf16LengthPlain(s: string)
    requires forall i :: 0 <= i < |s| ==> s[i] as int < 0x10000
    ensures Utf16Length(s) == |s|
  {
    if s != "" {
      Utf16LengthPlain(s[..|s| - 1]);
    }
  }

  predicate EndsWith(s: string, suffix: string) {
    |suffix| <= |s| && s[|s| - |suffix|..] == suffix
  }

  predicate Includes(s: string, part: string) {
    exists i :: 0 <= i <= |s| - |part| && part <= s[i..]
  }

  lemma EndsWithIff(s: string, suffix: string)
    ensures EndsWith(s, suffix) <==> exists front :: s == front + suffix
  {
    if EndsWith(s, suffix) {
      assert s == s[..|s| - |suffix|] + suffix;
    }
  }

  lemma IncludesIff(s: string, part: string)
    ensures Includes(s, part) <==> exists front, back :: s == front + part + back
  {
    if Includes(s, part) {
      var i :| 0 <= i <= |s| - |part| && part <= s[i..];
      assert s == s[..i] + part + s[i + |part|..];
    }
    forall front, back | s == front + part + back ensures Includes(s, part) {
      assert s[|front|..] == part + back;
    }
  }
}
