/**
 * The JavaScript string operations the service relies on: trim, startsWith,
 * includes, toLowerCase/toUpperCase, split and join.
 *
 * A Dafny `char` is a Unicode scalar value, while a JavaScript string counts
 * UTF-16 code units; lengths and indices agree for text in the Basic
 * Multilingual Plane only.
 */
module JsString {

  /** The characters String.prototype.trim removes: WhiteSpace and LineTerminator (ECMA-262 section 12.2 and 12.3). */
  predicate IsSpace(c: char) {
    || c == '\t' || c == '\n' || c == '\U{000B}' || c == '\U{000C}' || c == '\r' || c == ' '
    || c == '\U{00A0}' || c == '\U{1680}' || ('\U{2000}' <= c <= '\U{200A}')
    || c == '\U{2028}' || c == '\U{2029}' || c == '\U{202F}' || c == '\U{205F}'
    || c == '\U{3000}' || c == '\U{FEFF}'
  }

  predicate AllSpace(s: string) {
    forall i :: 0 <= i < |s| ==> IsSpace(s[i])
  }

  /** String.prototype.trimStart */
  function TrimStart(s: string): (r: string)
    ensures |r| <= |s|
    ensures r == [] || !IsSpace(r[0])
  {
    if s == [] then []
    else if IsSpace(s[0]) then TrimStart(s[1..])
    else s
  }

  /** String.prototype.trimEnd */
  function TrimEnd(s: string): (r: string)
    ensures |r| <= |s|
    ensures r == [] || !IsSpace(r[|r| - 1])
  {
    if s == [] then []
    else if IsSpace(s[|s| - 1]) then TrimEnd(s[..|s| - 1])
    else s
  }

  /** String.prototype.trim */
  function Trim(s: string): (r: string)
    ensures |r| <= |s|
    ensures r == [] || (!IsSpace(r[0]) && !IsSpace(r[|r| - 1]))
  {
    var t := TrimStart(s);
    TrimEndDropsSpace(t);
    assert TrimEnd(t) == [] || TrimEnd(t)[0] == t[0];
    TrimEnd(t)
  }

  /** trimStart removes a run of white space from the front, and nothing else. */
  lemma {:induction false} TrimStartDropsSpace(s: string)
    ensures var n := |s| - |TrimStart(s)|;
      TrimStart(s) == s[n..] && AllSpace(s[..n])
    decreases |s|
  {
    if s != [] && IsSpace(s[0]) {
      TrimStartDropsSpace(s[1..]);
      var n := |s| - |TrimStart(s)|;
      assert s[1..][n - 1..] == s[n..];
      assert forall i :: 1 <= i < n ==> s[i] == s[1..][..n - 1][i - 1];
    }
  }

  /** trimEnd removes a run of white space from the back, and nothing else. */
  lemma {:induction false} TrimEndDropsSpace(s: string)
    ensures var m := |TrimEnd(s)|;
      TrimEnd(s) == s[..m] && AllSpace(s[m..])
    decreases |s|
  {
    if s != [] && IsSpace(s[|s| - 1]) {
      var u := s[..|s| - 1];
      TrimEndDropsSpace(u);
      var m := |TrimEnd(s)|;
      assert u[..m] == s[..m];
      assert forall i :: m <= i < |s| - 1 ==> s[i] == u[m..][i - m];
    }
  }

  /** What trim returns is the text between a leading and a trailing run of white space. */
  lemma TrimIsInner(s: string)
    ensures exists k :: 0 <= k <= |s| - |Trim(s)| && Trim(s) == s[k..k + |Trim(s)|]
                        && AllSpace(s[..k]) && AllSpace(s[k + |Trim(s)|..])
  {
    var t := TrimStart(s);
    var r := TrimEnd(t);
    TrimStartDropsSpace(s);
    TrimEndDropsSpace(t);
    var k := |s| - |t|;
    assert r == s[k..k + |r|];
    assert s[k + |r|..] == t[|r|..];
  }

  /** After a non-space character, whatever is appended survives trimStart. */
  lemma {:induction false} TrimStartAppend(s: string, t: string)
    requires !AllSpace(s)
    ensures TrimStart(s + t) == TrimStart(s) + t
  {
    if IsSpace(s[0]) {
      assert (s + t)[1..] == s[1..] + t;
      TrimStartAppend(s[1..], t);
    }
  }

  lemma {:induction false} TrimStartAllSpace(s: string)
    requires AllSpace(s)
    ensures TrimStart(s) == []
  {
    if s != [] {
      TrimStartAllSpace(s[1..]);
    }
  }

  /** A string of white space only trims to the empty string. */
  lemma TrimAllSpace(s: string)
    requires AllSpace(s)
    ensures Trim(s) == []
  {
    TrimStartAllSpace(s);
  }

  lemma {:induction false} TrimEndAppendSpace(s: string, t: string)
    requires AllSpace(t)
    ensures TrimEnd(s + t) == TrimEnd(s)
  {
    if t != [] {
      var u := s + t[..|t| - 1];
      assert (s + t)[..|s + t| - 1] == u;
      TrimEndAppendSpace(s, t[..|t| - 1]);
    } else {
      assert s + t == s;
    }
  }

  /** Trailing white space never changes what trim returns. */
  lemma TrimAppendSpace(s: string, t: string)
    requires AllSpace(t)
    ensures Trim(s + t) == Trim(s)
  {
    if AllSpace(s) {
      TrimStartAllSpace(s);
      TrimStartAllSpace(s + t);
    } else {
      TrimStartAppend(s, t);
      TrimEndAppendSpace(TrimStart(s), t);
    }
  }

  /** trim is idempotent. */
  lemma TrimIdempotent(s: string)
    ensures Trim(Trim(s)) == Trim(s)
  {
    var r := Trim(s);
    if r != [] {
      assert TrimStart(r) == r;
      assert TrimEnd(r) == r;
    }
  }

  /** String.prototype.startsWith */
  predicate StartsWith(s: string, prefix: string) {
    prefix <= s
  }

  /** String.prototype.includes */
  predicate Contains(s: string, part: string) {
    exists i | 0 <= i <= |s| - |part| :: OccursAt(s, part, i)
  }

  predicate OccursAt(s: string, part: string, i: int) {
    0 <= i <= |s| - |part| && s[i..i + |part|] == part
  }

  function LowerChar(c: char): char {
    if 'A' <= c <= 'Z' then (c as int + 32) as char else c
  }

  function UpperChar(c: char): char {
    if 'a' <= c <= 'z' then (c as int - 32) as char else c
  }

  /** String.prototype.toLowerCase, for ASCII letters */
  function Lower(s: string): (r: string)
    ensures |r| == |s|
    ensures forall i :: 0 <= i < |s| ==> r[i] == LowerChar(s[i])
  {
    seq(|s|, i requires 0 <= i < |s| => LowerChar(s[i]))
  }

  /** String.prototype.toUpperCase, for ASCII letters */
  function Upper(s: string): (r: string)
    ensures |r| == |s|
    ensures forall i :: 0 <= i < |s| ==> r[i] == UpperChar(s[i])
  {
    seq(|s|, i requires 0 <= i < |s| => UpperChar(s[i]))
  }

  /** Array.prototype.join */
  function Join(parts: seq<string>, sep: string): string {
    if |parts| == 0 then ""
    else if |parts| == 1 then parts[0]
    else parts[0] + sep + Join(parts[1..], sep)
  }

  /** String.prototype.split with a one-character separator. */
  function Split(s: string, sep: char): (r: seq<string>)
    ensures |r| >= 1
    ensures forall i :: 0 <= i < |r| ==> sep !in r[i]
  {
    if s == [] then [""]
    else
      var rest := Split(s[1..], sep);
      if s[0] == sep then [""] + rest
      else [[s[0]] + rest[0]] + rest[1..]
  }

  /** Joining the pieces of a split with the separator gives the string back. */
  lemma {:induction false} JoinSplit(s: string, sep: char)
    ensures Join(Split(s, sep), [sep]) == s
  {
    if s != [] {
      var rest := Split(s[1..], sep);
      JoinSplit(s[1..], sep);
      if s[0] == sep {
        assert Split(s, sep) == [""] + rest;
        assert (([""] + rest)[1..]) == rest;
      } else {
        var r := [[s[0]] + rest[0]] + rest[1..];
        if |rest| == 1 {
          assert Join(rest, [sep]) == rest[0];
        } else {
          assert Join(rest, [sep]) == rest[0] + [sep] + Join(rest[1..], [sep]);
          assert r[1..] == rest[1..];
        }
      }
    }
  }
}
