/** String operations of the JavaScript runtime that the application relies on:
    white space as `\s` and `trim` see it, `split(sep).pop()`, and the length
    of a string counted in UTF-16 code units. */
module Strings {

  /** The characters in JavaScript's `\s` class; `String.prototype.trim` removes
      exactly these (ECMAScript WhiteSpace and LineTerminator). */
  predicate IsSpace(c: char) {
    var n := c as int;
    (0x09 <= n <= 0x0D) || n == 0x20 || n == 0xA0 || n == 0x1680
    || (0x2000 <= n <= 0x200A) || n == 0x2028 || n == 0x2029 || n == 0x202F
    || n == 0x205F || n == 0x3000 || n == 0xFEFF
  }

  predicate AllSpace(s: string) {
    forall i :: 0 <= i < |s| ==> IsSpace(s[i])
  }

  predicate NoSpace(s: string) {
    forall i :: 0 <= i < |s| ==> !IsSpace(s[i])
  }

  /** `s` with its leading white space removed. */
  function TrimStart(s: string): (r: string)
    ensures |r| <= |s|
  {
    if s != [] && IsSpace(s[0]) then TrimStart(s[1..]) else s
  }

  /** `s` with its trailing white space removed. */
  function TrimEnd(s: string): (r: string)
    ensures |r| <= |s|
  {
    if s != [] && IsSpace(s[|s| - 1]) then TrimEnd(s[..|s| - 1]) else s
  }

  /** `TrimStart` drops a prefix of white space and stops at a character that is not. */
  lemma {:induction false} TrimStartShape(s: string)
    ensures var r := TrimStart(s);
      r == s[|s| - |r|..] && (r != [] ==> !IsSpace(r[0])) && AllSpace(s[..|s| - |r|])
  {
    if s != [] && IsSpace(s[0]) {
      TrimStartShape(s[1..]);
      var r := TrimStart(s[1..]);
      assert s[1..][..|s| - 1 - |r|] == s[1..|s| - |r|];
    }
  }

  /** `TrimEnd` drops a suffix of white space and stops at a character that is not. */
  lemma {:induction false} TrimEndShape(s: string)
    ensures var r := TrimEnd(s);
      r == s[..|r|] && (r != [] ==> !IsSpace(r[|r| - 1])) && AllSpace(s[|r|..])
  {
    if s != [] && IsSpace(s[|s| - 1]) {
      TrimEndShape(s[..|s| - 1]);
      var r := TrimEnd(s[..|s| - 1]);
      assert s[..|s| - 1][|r|..] == s[|r|..|s| - 1];
    }
  }

  /** JavaScript's `s.trim()`: the text between the first and the last
      character that is not white space. */
  function Trim(s: string): (r: string)
    ensures |r| <= |s|
    ensures r != [] ==> !IsSpace(r[0]) && !IsSpace(r[|r| - 1])
    ensures r == [] <==> AllSpace(s)
  {
    var t := TrimStart(s);
    TrimStartShape(s);
    TrimEndShape(t);
    assert AllSpace(s) ==> t == [];
    assert t == [] ==> s == s[..|s| - |t|];
    TrimEnd(t)
  }

  /** What `trim()` removes: `Trim(s)` is the slice of `s` that starts after
      the leading white space, and everything around it is white space. */
  lemma {:induction false} TrimIsSlice(s: string)
    ensures var r, k := Trim(s), |s| - |TrimStart(s)|;
      k + |r| <= |s| && r == s[k..k + |r|] && AllSpace(s[..k]) && AllSpace(s[k + |r|..])
  {
    var t := TrimStart(s);
    var r := TrimEnd(t);
    var k := |s| - |t|;
    TrimStartShape(s);
    TrimEndShape(t);
    assert s[k..k + |r|] == t[..|r|];
    assert s[k + |r|..] == t[|r|..];
  }

  /** A string is blank (falsy after `trim()`) exactly when every character is white space. */
  predicate IsBlank(s: string) {
    Trim(s) == []
  }

  /** Trimming a string without white space gives the string back. */
  lemma {:induction false} TrimNoSpace(s: string)
    requires NoSpace(s)
    ensures Trim(s) == s
  {
    assert TrimStart(s) == s by {
      if s != [] {
        assert !IsSpace(s[0]);
      }
    }
    assert TrimEnd(s) == s by {
      if s != [] {
        assert !IsSpace(s[|s| - 1]);
      }
    }
  }

  /** The text after the last `sep` in `s`, or all of `s` when `sep` does not
      occur: what JavaScript's `s.split(sep).pop()` returns. */
  function LastSegment(s: string, sep: char): (r: string)
    ensures |r| <= |s|
  {
    if s == [] then []
    else if s[|s| - 1] == sep then []
    else LastSegment(s[..|s| - 1], sep) + [s[|s| - 1]]
  }

  /** The last segment is a suffix free of `sep`, and it is all of `s` or
      follows a `sep`. */
  lemma {:induction false} LastSegmentShape(s: string, sep: char)
    ensures var r := LastSegment(s, sep);
      && r == s[|s| - |r|..] && sep !in r
      && (|r| < |s| ==> s[|s| - |r| - 1] == sep)
  {
    if s != [] && s[|s| - 1] != sep {
      var init := s[..|s| - 1];
      LastSegmentShape(init, sep);
      var r := LastSegment(init, sep);
      assert init[|init| - |r|..] + [s[|s| - 1]] == s[|s| - 1 - |r|..];
    }
  }

  /** Without any `sep`, the last segment is the whole string. */
  lemma LastSegmentWithoutSeparator(s: string, sep: char)
    requires sep !in s
    ensures LastSegment(s, sep) == s
  {
  }

  /** The last segment of `prefix + [sep] + tail` is `tail` whenever `tail` holds no `sep`. */
  lemma {:induction false} LastSegmentAfterSeparator(prefix: string, sep: char, tail: string)
    requires sep !in tail
    ensures LastSegment(prefix + [sep] + tail, sep) == tail
  {
    var s := prefix + [sep] + tail;
    if tail != [] {
      var init := tail[..|tail| - 1];
      assert s[..|s| - 1] == prefix + [sep] + init;
      assert tail == init + [tail[|tail| - 1]];
      LastSegmentAfterSeparator(prefix, sep, init);
    }
  }

  /** The length JavaScript reports for a string: its UTF-16 code units, two for
      each character beyond the Basic Multilingual Plane. */
  function Utf16Length(s: string): (n: nat)
    ensures |s| <= n <= 2 * |s|
  {
    if s == [] then 0
    else (if s[0] as int > 0xFFFF then 2 else 1) + Utf16Length(s[1..])
  }
}
